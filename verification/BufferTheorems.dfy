/** Whole-run properties of the firmware I/O buffer: the reordering, dropping and merging of requests
    cannot be seen by the host, up to one exactly characterised defect of the read-from-write-buffer path. */
module BufferTheorems {
  import opened Options
  import opened Disk
  import opened Frames
  import opened BufferSpec
  import opened BufferWrites

  /** The disk the host has written, whatever is still queued. */
  function Visible(c: Config, st: State): (d: seq<Value>)
    requires Shape(c, st)
    ensures |d| == c.sectors
  {
    Replay(st.flash, st.writeQueue)
  }

  /** The answers the host is still owed, in arrival order. */
  function Outstanding(c: Config, st: State): (xs: seq<Answer>)
    requires Shape(c, st)
    ensures |xs| == |st.completed| + |st.readQueue|
  {
    st.completed + seq(|st.readQueue|, i requires 0 <= i < |st.readQueue| =>
                         assert ReadOk(st.readQueue[i], c.sectors);
                         Answered(st.readQueue[i], st.flash))
  }

  // ---------------------------------------------------------------------------------------------
  // Writes

  /** Whatever it drops or merges, enqueueing a write acts on the visible disk as that one write. */
  lemma {:induction false} EnqueueWriteEffect(c: Config, st: State, s: nat, x: seq<Value>)
    requires Shape(c, st)
    requires 1 <= |x| <= WriteFree(c, st) && s + |x| <= c.sectors
    ensures var r := EnqueueWrite(st, s, x);
            Shape(c, r) &&
            Visible(c, r) == Put(Visible(c, st), s, x) &&
            Outstanding(c, r) == Outstanding(c, st) &&
            WriteFree(c, r) == WriteFree(c, st) - |x|
  {
    hide Put, Replay, WritesOk, ReadsOk, AnswersOk, SpanTotal, Attach, SameOutside, ReadTotal, AnswerTotal;
    var ys := Elide(st.writeQueue, s, |x|);
    ElideOk(st.writeQueue, s, |x|, c.sectors);
    ElideTotal(st.writeQueue, s, |x|);
    SameAsItself(st.flash, s, |x|);
    ElideSameOutside(st.flash, st.flash, st.writeQueue, s, |x|);
    PutHides(Visible(c, st), Replay(st.flash, ys), s, x);
    AttachEffect(st.flash, ys, s, x);
  }

  // ---------------------------------------------------------------------------------------------
  // Dequeueing and flushing change nothing visible

  lemma {:induction false} DequeueInvisible(c: Config, st: State)
    requires Shape(c, st)
    ensures Shape(c, DequeueIo(c, st))
    ensures Visible(c, DequeueIo(c, st)) == Visible(c, st)
    ensures Outstanding(c, DequeueIo(c, st)) == Outstanding(c, st)
  {
    hide Put, Live, Shape, Visible, Outstanding;
    DequeueKeepsShape(c, st);
    if st.readQueue != [] {
      DequeueReadInvisible(c, st);
    } else if st.writeQueue != [] {
      DequeueWriteInvisible(c, st);
    }
  }

  lemma {:induction false} DequeueReadInvisible(c: Config, st: State)
    requires Shape(c, st) && st.readQueue != [] && Shape(c, DequeueIo(c, st))
    ensures Visible(c, DequeueIo(c, st)) == Visible(c, st)
    ensures Outstanding(c, DequeueIo(c, st)) == Outstanding(c, st)
  {
    hide Replay, Put, Live, WritesOk, AnswersOk, SpanTotal, ReadTotal, AnswerTotal, AllInRange;
  }

  lemma {:induction false} DequeueWriteInvisible(c: Config, st: State)
    requires Shape(c, st) && st.readQueue == [] && st.writeQueue != [] && Shape(c, DequeueIo(c, st))
    ensures Visible(c, DequeueIo(c, st)) == Visible(c, st)
    ensures Outstanding(c, DequeueIo(c, st)) == Outstanding(c, st)
  {
    hide Put, Live, ReadsOk, AnswersOk, SpanTotal, ReadTotal, AnswerTotal;
    var w := st.writeQueue[0];
    assert WriteOk(w, c.sectors);
    PutSectors(st.flash, w.sector, Live(w.span));
  }

  lemma {:induction false} FlushInvisible(c: Config, st: State, k: nat)
    requires Shape(c, st)
    ensures Visible(c, Flush(c, st, k)) == Visible(c, st)
    ensures Outstanding(c, Flush(c, st, k)) == Outstanding(c, st)
    decreases k
  {
    hide Shape, Visible, Outstanding, DequeueIo;
    if k > 0 {
      DequeueInvisible(c, st);
      FlushInvisible(c, DequeueIo(c, st), k - 1);
    }
  }

  /** Flushing reads touches nothing but the reads. */
  lemma {:induction false} FlushReads(c: Config, st: State, k: nat)
    requires Shape(c, st) && k <= |st.readQueue|
    ensures var r := Flush(c, st, k);
            r.readQueue == st.readQueue[k..] && r.writeQueue == st.writeQueue &&
            r.flash == st.flash && r.leftover == st.leftover
    decreases k
  {
    if k > 0 {
      DequeueKeepsShape(c, st);
      hide Shape;
      FlushReads(c, DequeueIo(c, st), k - 1);
    }
  }

  /** Flushing writes executes a prefix of them; the frames up to a valid one are released. */
  lemma {:induction false} FlushWrites(c: Config, st: State, k: nat)
    requires Shape(c, st) && st.readQueue == [] && k <= |st.writeQueue|
    ensures AllInRange(st.writeQueue[..k], c.sectors)
    ensures var r := Flush(c, st, k);
            r.readQueue == [] && r.writeQueue == st.writeQueue[k..] && r.completed == st.completed &&
            |st.flash| == c.sectors && r.flash == Replay(st.flash, st.writeQueue[..k]) &&
            (k > 0 && st.writeQueue[k - 1].valid ==> r.leftover == [])
    decreases k
  {
    hide Put, Live;
    WritesInRange(st.writeQueue, c.sectors);
    if k > 0 {
      DequeueKeepsShape(c, st);
      var ws := st.writeQueue;
      assert WriteOk(ws[0], c.sectors);
      PutSectors(st.flash, ws[0].sector, Live(ws[0].span));
      FlushWrites(c, DequeueIo(c, st), k - 1);
      assert ws[..k][1..] == ws[1..][..k - 1];
    }
  }

  lemma {:induction false} FlushSplit(c: Config, st: State, j: nat, k: nat)
    requires Shape(c, st)
    ensures Flush(c, st, j + k) == Flush(c, Flush(c, st, j), k)
    decreases j
  {
    hide Shape, DequeueIo;
    if j > 0 {
      DequeueKeepsShape(c, st);
      FlushSplit(c, DequeueIo(c, st), j - 1, k);
    }
  }

  /** A flush past the reads answers all of them and executes exactly the first `k` writes. */
  lemma {:induction false} FlushTakesPrefix(c: Config, st: State, k: nat)
    requires Shape(c, st) && k <= |st.writeQueue|
    ensures AllInRange(st.writeQueue[..k], c.sectors)
    ensures var r := Flush(c, st, |st.readQueue| + k);
            r.readQueue == [] && r.writeQueue == st.writeQueue[k..] &&
            |st.flash| == c.sectors && r.flash == Replay(st.flash, st.writeQueue[..k]) &&
            (k > 0 && st.writeQueue[k - 1].valid ==> r.leftover == [])
  {
    hide Shape, Flush, Replay, AllInRange;
    FlushSplit(c, st, |st.readQueue|, k);
    FlushReads(c, st, |st.readQueue|);
    FlushWrites(c, Flush(c, st, |st.readQueue|), k);
  }

  /** A full flush empties both queues, frees the whole ring and leaves the visible disk on flash. */
  lemma {:induction false} FlushAllEmpties(c: Config, st: State)
    requires Shape(c, st)
    ensures var r := Flush(c, st, |st.readQueue| + |st.writeQueue|);
            r.readQueue == [] && r.writeQueue == [] && r.leftover == [] &&
            WriteFree(c, r) == c.writeFrames &&
            r.flash == Visible(c, st) && r.completed == Outstanding(c, st)
  {
    hide Flush, WritesOk, ReadsOk, AnswersOk, AllInRange;
    var k := |st.writeQueue|;
    FlushTakesPrefix(c, st, k);
    FlushInvisible(c, st, |st.readQueue| + k);
  }

  // ---------------------------------------------------------------------------------------------
  // Reads

  /** What the firmware answers to a read that arrives now. */
  function Promise(c: Config, st: State, s: nat, n: nat): Answer
    requires Shape(c, st) && s + n <= c.sectors
  {
    var k := LastOverlap(st.writeQueue, s, n);
    if k < 0 then Answer(s, n, st.flash[s..s + n])
    else
      var w := st.writeQueue[k];
      LiveBound(w.span);
      WritesInRange(st.writeQueue, c.sectors);
      Answer(s, n, if Covers(w, s, n) then CopyOut(w, s, n)
                   else Replay(st.flash, st.writeQueue[..k + 1])[s..s + n])
  }

  predicate NoSuperseded(fs: seq<Frame>) {
    forall i :: 0 <= i < |fs| ==> fs[i].status != 'I'
  }

  /** The read is served from the write buffer, and the frames of the serving write up to the end of
      the requested sectors include a superseded one. */
  predicate Exposed(st: State, s: nat, n: nat) {
    var k := LastOverlap(st.writeQueue, s, n);
    k >= 0 && Covers(st.writeQueue[k], s, n) &&
    s - st.writeQueue[k].sector + n <= |st.writeQueue[k].span| &&
    !NoSuperseded(st.writeQueue[k].span[..s - st.writeQueue[k].sector + n])
  }

  /** Queueing one more unanswered or copied read. */
  lemma {:induction false} AddRead(c: Config, st: State, r: Read)
    requires Shape(c, st) && ReadOk(r, c.sectors) && r.length <= ReadFree(c, st)
    requires r.copied.None? || st.readQueue == []
    ensures var z := st.(readQueue := st.readQueue + [r]);
            Shape(c, z) && Visible(c, z) == Visible(c, st) && |st.flash| == c.sectors &&
            Outstanding(c, z) == Outstanding(c, st) + [Answered(r, st.flash)] &&
            ReadFree(c, z) == ReadFree(c, st) - r.length
  {
    hide Replay, WritesOk, AnswersOk, AllSuperseded, SpanTotal, ReadTotal, AnswerTotal, WriteOk, Live;
    ReadTotalSnoc(st.readQueue, r);
  }

  lemma {:induction false} EnqueueReadEffect(c: Config, st: State, s: nat, n: nat)
    requires Shape(c, st)
    requires 1 <= n <= ReadFree(c, st) && s + n <= c.sectors
    ensures var r := EnqueueRead(c, st, s, n);
            Shape(c, r) &&
            Visible(c, r) == Visible(c, st) &&
            Outstanding(c, r) == Outstanding(c, st) + [Promise(c, st, s, n)] &&
            ReadFree(c, r) == ReadFree(c, st) - n
  {
    hide Flush, Shape, Visible, Outstanding, ReadFree, AllInRange, Replay, CopyOut;
    var k := LastOverlap(st.writeQueue, s, n);
    if k < 0 {
      assert |st.flash| == c.sectors by { ShapeFlash(c, st); }
      AddRead(c, st, Read(s, n, None));
    } else {
      var w := st.writeQueue[k];
      var a := Flush(c, st, |st.readQueue| + k + 1);
      FlushTakesPrefix(c, st, k + 1);
      FlushInvisible(c, st, |st.readQueue| + k + 1);
      FlushKeepsReadFree(c, st, |st.readQueue| + k + 1);
      ShapeFlash(c, st);
      ShapeWrite(c, st, k);
      AddRead(c, a, Read(s, n, if Covers(w, s, n) then Some(CopyOut(w, s, n)) else None));
    }
  }

  lemma {:induction false} ShapeFlash(c: Config, st: State)
    requires Shape(c, st)
    ensures |st.flash| == c.sectors
  {
  }

  lemma {:induction false} ShapeWrite(c: Config, st: State, k: nat)
    requires Shape(c, st) && k < |st.writeQueue|
    ensures WriteOk(st.writeQueue[k], c.sectors)
    ensures st.writeQueue[k].valid ==> st.writeQueue[k].length <= |st.writeQueue[k].span|
  {
    LiveBound(st.writeQueue[k].span);
  }

  lemma {:induction false} ReadTotalSnoc(rs: seq<Read>, r: Read)
    ensures ReadTotal(rs + [r]) == ReadTotal(rs) + r.length
  {
    if rs != [] {
      ReadTotalSnoc(rs[1..], r);
      assert (rs + [r])[1..] == rs[1..] + [r];
    } else {
      assert (rs + [r])[1..] == [];
    }
  }

  lemma {:induction false} DequeueKeepsReadFree(c: Config, st: State)
    requires Shape(c, st)
    ensures ReadFree(c, DequeueIo(c, st)) == ReadFree(c, st)
  {
    hide Put, Live;
    if st.readQueue != [] {
      assert ReadOk(st.readQueue[0], c.sectors);
      AnswerTotalSnoc(st.completed, Answered(st.readQueue[0], st.flash));
    }
  }

  lemma {:induction false} FlushKeepsReadFree(c: Config, st: State, k: nat)
    requires Shape(c, st)
    ensures ReadFree(c, Flush(c, st, k)) == ReadFree(c, st)
    decreases k
  {
    hide Shape, ReadFree, DequeueIo;
    if k > 0 {
      DequeueKeepsShape(c, st);
      DequeueKeepsReadFree(c, st);
      FlushKeepsReadFree(c, DequeueIo(c, st), k - 1);
    }
  }

  lemma {:induction false} LiveIsRaw(fs: seq<Frame>)
    requires Pending(fs) && NoSuperseded(fs)
    ensures Live(fs) == Raw(fs)
  {
    if fs != [] { LiveIsRaw(fs[1..]); }
  }

  /** The visible contents of a range are settled by the last write that overlaps it. */
  lemma {:induction false} VisibleUpTo(c: Config, st: State, s: nat, n: nat, k: nat)
    requires Shape(c, st) && s + n <= c.sectors && LastOverlap(st.writeQueue, s, n) == k
    ensures AllInRange(st.writeQueue[..k + 1], c.sectors) && |st.flash| == c.sectors
    ensures Visible(c, st)[s..s + n] == Replay(st.flash, st.writeQueue[..k + 1])[s..s + n]
  {
    hide Replay, WriteOk, AllInRange, LastOverlap;
    var ws := st.writeQueue;
    WritesInRange(ws, c.sectors);
    WritesInRange(ws[..k + 1], c.sectors);
    WritesInRange(ws[k + 1..], c.sectors);
    ReplaySplit(st.flash, ws[..k + 1], ws[k + 1..]);
    assert ws == ws[..k + 1] + ws[k + 1..];
    var later := ws[k + 1..];
    forall i | 0 <= i < |later|
      ensures !(later[i].valid && Overlaps(later[i], s, n))
    {
      assert later[i] == ws[k + 1 + i];
    }
    ReplayOutside(Replay(st.flash, ws[..k + 1]), later, s, n);
  }

  /** A read that is not exposed is promised exactly what the plain disk holds when it arrives. */
  lemma {:induction false} PromiseCorrect(c: Config, st: State, s: nat, n: nat)
    requires Shape(c, st) && s + n <= c.sectors && n >= 1
    requires !Exposed(st, s, n)
    ensures Promise(c, st, s, n) == Answer(s, n, Visible(c, st)[s..s + n])
  {
    hide Replay, WriteOk, CopyOut, AllInRange, NoSuperseded;
    var ws := st.writeQueue;
    var k := LastOverlap(ws, s, n);
    if k < 0 {
      ReplayOutside(st.flash, ws, s, n);
    } else {
      VisibleUpTo(c, st, s, n, k);
      if Covers(ws[k], s, n) {
        CoveredSlice(c, st, s, n, k);
      }
    }
  }

  /** What the last overlapping write put on the requested sectors, when it covers them all. */
  lemma {:induction false} CoveredSlice(c: Config, st: State, s: nat, n: nat, k: nat)
    requires Shape(c, st) && s + n <= c.sectors
    requires k < |st.writeQueue| && st.writeQueue[k].valid && Covers(st.writeQueue[k], s, n)
    ensures AllInRange(st.writeQueue[..k + 1], c.sectors) && |st.flash| == c.sectors
    ensures var w := st.writeQueue[k];
            var off := s - w.sector;
            off + n <= |Live(w.span)| <= |w.span| && w.length <= |w.span| &&
            Replay(st.flash, st.writeQueue[..k + 1])[s..s + n] == Live(w.span)[off..off + n] &&
            (NoSuperseded(w.span[..off + n]) ==> Live(w.span)[off..off + n] == CopyOut(w, s, n))
  {
    hide Replay, Live, AllInRange, Put, NoSuperseded;
    var ws := st.writeQueue;
    var w := ws[k];
    assert WriteOk(w, c.sectors);
    var off := s - w.sector;
    WritesInRange(ws[..k], c.sectors);
    LiveBound(w.span);
    ReplaySnoc(st.flash, ws[..k], w);
    assert ws[..k + 1] == ws[..k] + [w];
    PutSectors(Replay(st.flash, ws[..k]), w.sector, Live(w.span));
    var d := Replay(st.flash, ws[..k + 1]);
    SliceOfSlice(d, w.sector, w.sector + |Live(w.span)|, off, n);
    if NoSuperseded(w.span[..off + n]) {
      LiveSplit(w.span, off + n);
      LiveIsRaw(w.span[..off + n]);
      assert Live(w.span)[off..off + n] == Raw(w.span[..off + n])[off..];
    }
  }

  // ---------------------------------------------------------------------------------------------
  // The copy is right for all data exactly when no superseded frame comes first

  /** Frames with the same statuses, holding other data. */
  predicate SameStatus(a: seq<Frame>, b: seq<Frame>) {
    |a| == |b| && forall i :: 0 <= i < |a| ==> a[i].status == b[i].status
  }

  /** The frames the copy takes hold the values of the requested sectors. */
  predicate CopyRight(fs: seq<Frame>, off: nat, n: nat) {
    off + n <= |fs| && off + n <= |Live(fs)| && Raw(fs[off..off + n]) == Live(fs)[off..off + n]
  }

  /** Later frames carry longer values, all shorter than `k`. */
  predicate Rising(fs: seq<Frame>, k: nat) {
    && (forall i | 0 <= i < |fs| :: |fs[i].value| < k)
    && (forall i, j | 0 <= i < j < |fs| :: |fs[i].value| < |fs[j].value|)
  }

  /** The i-th value of a span is at or after its i-th frame, and after it once a frame was superseded. */
  lemma {:induction false} LiveRises(fs: seq<Frame>, k: nat, i: nat)
    requires Rising(fs, k) && Pending(fs) && i < |Live(fs)|
    ensures i < |fs| && |Live(fs)[i]| >= |fs[i].value|
    ensures !NoSuperseded(fs[..i + 1]) ==> |Live(fs)[i]| > |fs[i].value|
    decreases fs
  {
    hide Rising, NoSuperseded;
    LiveBound(fs);
    var rest := fs[1..];
    RisingTail(fs, k);
    if fs[0].status != 'V' {
      LiveRises(rest, k, i);
      assert |rest[i].value| > |fs[i].value| by { RisingAt(fs, k, i); }
    } else if i > 0 {
      LiveRises(rest, k, i - 1);
      SupersededTail(fs, i);
    } else {
      SupersededTail(fs, 0);
      NothingSuperseded(rest[..0]);
    }
  }

  lemma {:induction false} RisingTail(fs: seq<Frame>, k: nat)
    requires Rising(fs, k) && fs != []
    ensures Rising(fs[1..], k)
  {
  }

  lemma {:induction false} RisingAt(fs: seq<Frame>, k: nat, i: nat)
    requires Rising(fs, k) && i + 1 < |fs|
    ensures |fs[i].value| < |fs[1..][i].value|
  {
  }

  lemma {:induction false} NothingSuperseded(fs: seq<Frame>)
    requires fs == []
    ensures NoSuperseded(fs)
  {
  }

  lemma {:induction false} SupersededTail(fs: seq<Frame>, i: nat)
    requires i < |fs| && fs[0].status != 'I'
    ensures NoSuperseded(fs[..i + 1]) <==> NoSuperseded(fs[1..][..i])
  {
    var a, b := fs[..i + 1], fs[1..][..i];
    assert a == [fs[0]] + b;
    assert forall j | 0 <= j < i :: a[j + 1] == b[j];
    assert forall j | 1 <= j < i + 1 :: a[j] == b[j - 1];
  }

  /** Numbers the frames: a frame's value names its position. */
  function Numbered(fs: seq<Frame>): (r: seq<Frame>)
    ensures SameStatus(fs, r) && Rising(r, |fs|)
  {
    seq(|fs|, i requires 0 <= i < |fs| => Frame(fs[i].status, seq(i, _ => 0 as bv8)))
  }

  lemma {:induction false} LiveCountByStatus(a: seq<Frame>, b: seq<Frame>)
    requires SameStatus(a, b)
    ensures |Live(a)| == |Live(b)|
  {
    if a != [] { LiveCountByStatus(a[1..], b[1..]); }
  }

  lemma {:induction false} SameSuperseded(fs: seq<Frame>, gs: seq<Frame>, m: nat)
    requires SameStatus(fs, gs) && m <= |fs|
    ensures NoSuperseded(fs[..m]) <==> NoSuperseded(gs[..m])
  {
    assert forall i | 0 <= i < m :: fs[..m][i] == fs[i] && gs[..m][i] == gs[i];
  }

  lemma {:induction false} CopyOfUnsuperseded(gs: seq<Frame>, off: nat, n: nat)
    requires Pending(gs) && off + n <= |Live(gs)| && off + n <= |gs| && NoSuperseded(gs[..off + n])
    ensures CopyRight(gs, off, n)
  {
    hide Live, NoSuperseded;
    LiveSplit(gs, off + n);
    LiveIsRaw(gs[..off + n]);
    assert Live(gs)[off..off + n] == Raw(gs[..off + n])[off..];
  }

  lemma {:induction false} CopyOfNumbered(fs: seq<Frame>, off: nat, n: nat)
    requires Pending(fs) && n >= 1 && off + n <= |Live(Numbered(fs))| && off + n <= |fs| && !NoSuperseded(fs[..off + n])
    ensures !CopyRight(Numbered(fs), off, n)
  {
    hide Live, NoSuperseded, Numbered, Rising;
    var gs := Numbered(fs);
    SameSuperseded(fs, gs, off + n);
    LiveRises(gs, |fs|, off + n - 1);
    assert Raw(gs[off..off + n])[n - 1] == gs[off + n - 1].value;
    assert Live(gs)[off..off + n][n - 1] == Live(gs)[off + n - 1];
  }

  /** Exact condition for the copy of COPY_DATA_TO_READ_BUFFER: it returns the requested sectors for
      every contents of the frames if and only if no superseded frame precedes their end. */
  lemma {:induction false} CopyRightIff(fs: seq<Frame>, off: nat, n: nat)
    requires Pending(fs) && n >= 1 && off + n <= |Live(fs)|
    ensures (forall gs | SameStatus(fs, gs) :: CopyRight(gs, off, n))
            <==> NoSuperseded(fs[..if off + n <= |fs| then off + n else |fs|])
  {
    hide Live, NoSuperseded, Numbered, CopyRight;
    LiveBound(fs);
    if NoSuperseded(fs[..off + n]) {
      forall gs | SameStatus(fs, gs)
        ensures CopyRight(gs, off, n)
      {
        LiveCountByStatus(fs, gs);
        SameSuperseded(fs, gs, off + n);
        CopyOfUnsuperseded(gs, off, n);
      }
    } else {
      LiveCountByStatus(fs, Numbered(fs));
      CopyOfNumbered(fs, off, n);
    }
  }

  // ---------------------------------------------------------------------------------------------
  // Whole runs

  /** SSD_READ and SSD_WRITE, the steps of a run. */
  function Step(c: Config, st: State, q: Request): (State, seq<Answer>)
    requires Shape(c, st)
  {
    match q
    case HostRead(s, n) => SsdRead(c, st, s, n)
    case HostWrite(s, x) => SsdWrite(c, st, s, x)
  }

  /** The plain disk executes every request as it arrives. */
  function PlainStep(d: seq<Value>, q: Request): (seq<Value>, seq<Answer>)
    requires q.sector + (match q case HostRead(_, n) => n case HostWrite(_, x) => |x|) <= |d|
  {
    match q
    case HostRead(s, n) => (d, [Answer(s, n, d[s..s + n])])
    case HostWrite(s, x) => (Put(d, s, x), [])
  }

  /** What the step adds to the answers owed. */
  function Promised(c: Config, st: State, q: Request): seq<Answer>
    requires Shape(c, st) && RequestOk(c, q)
  {
    match q
    case HostRead(s, n) => [Promise(c, st, s, n)]
    case HostWrite(_, _) => []
  }

  predicate StepExposed(st: State, q: Request) {
    q.HostRead? && Exposed(st, q.sector, q.length)
  }

  lemma {:induction false} DeliverEffect(c: Config, st: State)
    requires Shape(c, st)
    ensures Shape(c, Deliver(st).0)
    ensures Visible(c, Deliver(st).0) == Visible(c, st)
    ensures Deliver(st).1 + Outstanding(c, Deliver(st).0) == Outstanding(c, st)
  {
    hide WritesOk, ReadsOk, Replay;
  }

  lemma {:induction false} SecureReadEffect(c: Config, st: State)
    requires Shape(c, st)
    ensures var (r, out) := SecureRead(c, st);
            Shape(c, r) && Visible(c, r) == Visible(c, st) &&
            out + Outstanding(c, r) == Outstanding(c, st) &&
            ReadFree(c, r) == c.readFrames &&
            r.writeQueue == st.writeQueue && r.flash == st.flash
  {
    hide Shape, Visible, Outstanding, Flush;
    DeliverEffect(c, st);
    var a := Deliver(st).0;
    var b := Flush(c, a, |a.readQueue|);
    FlushReads(c, a, |a.readQueue|);
    FlushInvisible(c, a, |a.readQueue|);
    DeliverEffect(c, b);
    assert b.readQueue == [];
    var r := Deliver(b).0;
    calc {
      (st.completed + b.completed) + Outstanding(c, r);
      st.completed + (b.completed + Outstanding(c, r));
      st.completed + Outstanding(c, b);
      Outstanding(c, st);
    }
  }

  /** What a promise depends on. */
  lemma {:induction false} PromiseSame(c: Config, a: State, b: State, s: nat, n: nat)
    requires Shape(c, a) && Shape(c, b) && s + n <= c.sectors
    requires a.writeQueue == b.writeQueue && a.flash == b.flash
    ensures Promise(c, a, s, n) == Promise(c, b, s, n)
  {
  }

  lemma {:induction false} SsdReadEffect(c: Config, st: State, s: nat, n: nat)
    requires Shape(c, st) && RequestOk(c, HostRead(s, n))
    ensures var (r, out) := SsdRead(c, st, s, n);
            Shape(c, r) && Visible(c, r) == Visible(c, st) &&
            out + Outstanding(c, r) == Outstanding(c, st) + [Promise(c, st, s, n)]
  {
    hide Shape, Visible, Outstanding, Flush, EnqueueRead, Promise, ReadFree, SecureRead;
    DeliverEffect(c, st);
    var (a, out) := Deliver(st);
    if ReadFree(c, a) < n {
      SecureReadEffect(c, a);
      var (b, more) := SecureRead(c, a);
      EnqueueReadEffect(c, b, s, n);
      PromiseSame(c, b, st, s, n);
      var r := EnqueueRead(c, b, s, n);
      var p := [Promise(c, st, s, n)];
      calc {
        (out + more) + Outstanding(c, r);
        (out + more) + (Outstanding(c, b) + p);
        out + (more + Outstanding(c, b)) + p;
        out + Outstanding(c, a) + p;
      }
    } else {
      EnqueueReadEffect(c, a, s, n);
      PromiseSame(c, a, st, s, n);
      assert out + (Outstanding(c, a) + [Promise(c, st, s, n)]) == out + Outstanding(c, a) + [Promise(c, st, s, n)];
    }
  }

  /** The write always fits: a full flush frees the whole ring. */
  lemma {:induction false} SsdWriteEffect(c: Config, st: State, s: nat, x: seq<Value>)
    requires Shape(c, st) && RequestOk(c, HostWrite(s, x))
    ensures var (r, out) := SsdWrite(c, st, s, x);
            Shape(c, r) && Visible(c, r) == Put(Visible(c, st), s, x) &&
            out + Outstanding(c, r) == Outstanding(c, st)
  {
    hide Shape, Visible, Outstanding, Flush, EnqueueWrite, WriteFree, Put;
    DeliverEffect(c, st);
    var (a, out) := Deliver(st);
    if WriteFree(c, a) < |x| {
      FlushAllEmpties(c, a);
      FlushInvisible(c, a, |a.readQueue| + |a.writeQueue|);
      EnqueueWriteEffect(c, Flush(c, a, |a.readQueue| + |a.writeQueue|), s, x);
    } else {
      EnqueueWriteEffect(c, a, s, x);
    }
  }

  /** One step keeps the shape, acts on the visible disk as the plain disk does, and neither loses,
      duplicates nor reorders an answer. */
  lemma {:induction false} StepEffect(c: Config, st: State, q: Request)
    requires Shape(c, st) && RequestOk(c, q)
    ensures var (r, out) := Step(c, st, q);
            Shape(c, r) &&
            Visible(c, r) == PlainStep(Visible(c, st), q).0 &&
            out + Outstanding(c, r) == Outstanding(c, st) + Promised(c, st, q)
  {
    hide Shape, Visible, Outstanding, SsdRead, SsdWrite, Promise, Put;
    match q
    case HostRead(s, n) => SsdReadEffect(c, st, s, n);
    case HostWrite(s, x) => SsdWriteEffect(c, st, s, x);
  }

  predicate RequestsOk(c: Config, qs: seq<Request>) {
    forall i :: 0 <= i < |qs| ==> RequestOk(c, qs[i])
  }

  function Run(c: Config, st: State, qs: seq<Request>): (State, seq<Answer>)
    requires Shape(c, st) && RequestsOk(c, qs)
    decreases qs
  {
    if qs == [] then (st, [])
    else
      assert RequestOk(c, qs[0]);
      StepEffect(c, st, qs[0]);
      var (a, out) := Step(c, st, qs[0]);
      var (r, more) := Run(c, a, qs[1..]);
      (r, out + more)
  }

  function PlainRun(c: Config, d: seq<Value>, qs: seq<Request>): (r: (seq<Value>, seq<Answer>))
    requires |d| == c.sectors && RequestsOk(c, qs)
    ensures |r.0| == c.sectors
    decreases qs
  {
    if qs == [] then (d, [])
    else
      assert RequestOk(c, qs[0]);
      var (e, out) := PlainStep(d, qs[0]);
      var (r, more) := PlainRun(c, e, qs[1..]);
      (r, out + more)
  }

  /** For each read of the run, in order, whether it arrives exposed. */
  function Exposures(c: Config, st: State, qs: seq<Request>): seq<bool>
    requires Shape(c, st) && RequestsOk(c, qs)
    decreases qs
  {
    if qs == [] then []
    else
      assert RequestOk(c, qs[0]);
      StepEffect(c, st, qs[0]);
      (if qs[0].HostRead? then [StepExposed(st, qs[0])] else []) + Exposures(c, Step(c, st, qs[0]).0, qs[1..])
  }

  /** For each read of the run, in order, what it is promised on arrival. */
  function Promises(c: Config, st: State, qs: seq<Request>): seq<Answer>
    requires Shape(c, st) && RequestsOk(c, qs)
    decreases qs
  {
    if qs == [] then []
    else
      assert RequestOk(c, qs[0]);
      StepEffect(c, st, qs[0]);
      Promised(c, st, qs[0]) + Promises(c, Step(c, st, qs[0]).0, qs[1..])
  }

  /** Over every run the visible disk is the plain disk, and the answers delivered followed by the
      answers still owed are the promises made, in arrival order. */
  lemma {:induction false} RunEffect(c: Config, st: State, qs: seq<Request>)
    requires Shape(c, st) && RequestsOk(c, qs)
    ensures var (r, out) := Run(c, st, qs);
            Shape(c, r) &&
            Visible(c, r) == PlainRun(c, Visible(c, st), qs).0 &&
            out + Outstanding(c, r) == Outstanding(c, st) + Promises(c, st, qs)
    decreases qs
  {
    hide Shape, Visible, Outstanding, Step, PlainStep, Promised;
    if qs != [] {
      assert RequestOk(c, qs[0]);
      StepEffect(c, st, qs[0]);
      var (a, out) := Step(c, st, qs[0]);
      RunEffect(c, a, qs[1..]);
      var (r, more) := Run(c, a, qs[1..]);
      calc {
        out + more + Outstanding(c, r);
        out + (more + Outstanding(c, r));
        out + (Outstanding(c, a) + Promises(c, a, qs[1..]));
        (out + Outstanding(c, a)) + Promises(c, a, qs[1..]);
        Outstanding(c, st) + Promised(c, st, qs[0]) + Promises(c, a, qs[1..]);
      }
    }
  }

  /** Every read that does not arrive exposed is promised what the plain disk answers. */
  lemma {:induction false} PromisesFaithful(c: Config, st: State, qs: seq<Request>)
    requires Shape(c, st) && RequestsOk(c, qs)
    ensures var plain := PlainRun(c, Visible(c, st), qs).1;
            var got := Promises(c, st, qs);
            var ex := Exposures(c, st, qs);
            |got| == |plain| == |ex| &&
            forall i :: 0 <= i < |got| ==>
              got[i].sector == plain[i].sector && got[i].length == plain[i].length &&
              (!ex[i] ==> got[i] == plain[i])
    decreases qs
  {
    hide Shape, Visible, Exposed, Step, Put, Replay, CopyOut, Live;
    if qs != [] {
      assert RequestOk(c, qs[0]);
      StepEffect(c, st, qs[0]);
      var a := Step(c, st, qs[0]).0;
      PromisesFaithful(c, a, qs[1..]);
      match qs[0]
      case HostRead(s, n) =>
        if !Exposed(st, s, n) { PromiseCorrect(c, st, s, n); }
      case HostWrite(_, _) =>
    }
  }

  /** Reordering is invisible: from power-on, for every sequence of requests, the i-th read is answered
      with what arrival-order execution on a plain disk returns, unless it arrives exposed. */
  lemma {:induction false} ReorderingInvisible(c: Config, flash: seq<Value>, qs: seq<Request>)
    requires |flash| == c.sectors && RequestsOk(c, qs)
    ensures var st := InitState(c, flash);
            var (r, out) := Run(c, st, qs);
            var plain := PlainRun(c, flash, qs).1;
            var ex := Exposures(c, st, qs);
            Shape(c, r) && |out| <= |plain| == |ex| &&
            |out| + |Outstanding(c, r)| == |plain| &&
            forall i :: 0 <= i < |plain| && !ex[i] ==> (out + Outstanding(c, r))[i] == plain[i]
  {
    hide Run, PlainRun, Exposures, Promises;
    var st := InitState(c, flash);
    RunEffect(c, st, qs);
    PromisesFaithful(c, st, qs);
    assert Outstanding(c, st) == [];
  }

  /** Shutting down after any run leaves on flash what the plain disk holds, and every read answered. */
  lemma {:induction false} TerminateDurable(c: Config, flash: seq<Value>, qs: seq<Request>)
    requires |flash| == c.sectors && RequestsOk(c, qs)
    ensures var (r, out) := Run(c, InitState(c, flash), qs);
            Shape(c, r) &&
            var z := Flush(c, r, |r.readQueue| + |r.writeQueue|);
            z.flash == PlainRun(c, flash, qs).0 && z.readQueue == [] && z.writeQueue == [] &&
            out + z.completed == Promises(c, InitState(c, flash), qs)
  {
    hide Promises, PlainRun, Run, Flush, Live;
    var st := InitState(c, flash);
    RunEffect(c, st, qs);
    FlushAllEmpties(c, Run(c, st, qs).0);
    assert Outstanding(c, st) == [];
  }
}
