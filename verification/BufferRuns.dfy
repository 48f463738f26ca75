/** Exactly which reads of a run can be answered wrongly. Whether a read arrives exposed depends on the sectors
    and lengths of the requests and not on the data; and if one does, some data makes its answer wrong. */
module BufferRuns {
  import opened Options
  import opened Disk
  import opened Frames
  import opened BufferSpec
  import opened BufferWrites
  import opened BufferTheorems
  import opened BufferDefect

  // ---------------------------------------------------------------------------------------------
  // Runs of requests that differ in their data alone

  predicate SameRequest(q: Request, p: Request) {
    match q
    case HostRead(_, _) => p == q
    case HostWrite(s, x) => p.HostWrite? && p.sector == s && |p.data| == |x|
  }

  predicate SameRequests(qs: seq<Request>, ps: seq<Request>) {
    |qs| == |ps| && forall i | 0 <= i < |qs| :: SameRequest(qs[i], ps[i])
  }

  predicate AlikeReads(a: seq<Read>, b: seq<Read>) {
    |a| == |b| && forall i | 0 <= i < |a| :: a[i].sector == b[i].sector && a[i].length == b[i].length
  }

  predicate AlikeAnswers(a: seq<Answer>, b: seq<Answer>) {
    |a| == |b| && forall i | 0 <= i < |a| :: a[i].length == b[i].length
  }

  predicate AlikeWrites(a: seq<Write>, b: seq<Write>) {
    |a| == |b| && forall i | 0 <= i < |a| :: SameWrite(a[i], b[i])
  }

  /** The two states differ at most in the data they hold. */
  predicate Alike(a: State, b: State) {
    && AlikeReads(a.readQueue, b.readQueue) && AlikeAnswers(a.completed, b.completed)
    && AlikeWrites(a.writeQueue, b.writeQueue) && |a.leftover| == |b.leftover|
  }

  lemma {:induction false} AlikeReadTotal(a: seq<Read>, b: seq<Read>)
    requires AlikeReads(a, b)
    ensures ReadTotal(a) == ReadTotal(b)
  {
    if a != [] { AlikeReadTotal(a[1..], b[1..]); }
  }

  lemma {:induction false} AlikeAnswerTotal(a: seq<Answer>, b: seq<Answer>)
    requires AlikeAnswers(a, b)
    ensures AnswerTotal(a) == AnswerTotal(b)
  {
    if a != [] { AlikeAnswerTotal(a[1..], b[1..]); }
  }

  lemma {:induction false} AlikeSpanTotal(a: seq<Write>, b: seq<Write>)
    requires AlikeWrites(a, b)
    ensures SpanTotal(a) == SpanTotal(b)
  {
    if a != [] {
      assert SameWrite(a[0], b[0]);
      AlikeSpanTotal(a[1..], b[1..]);
    }
  }

  lemma {:induction false} AlikeFree(c: Config, a: State, b: State)
    requires Alike(a, b)
    ensures ReadFree(c, a) == ReadFree(c, b) && WriteFree(c, a) == WriteFree(c, b)
  {
    hide AlikeReads, AlikeAnswers, AlikeWrites;
    AlikeReadTotal(a.readQueue, b.readQueue);
    AlikeAnswerTotal(a.completed, b.completed);
    AlikeSpanTotal(a.writeQueue, b.writeQueue);
  }

  lemma {:induction false} AlikeDequeue(c: Config, a: State, b: State)
    requires Shape(c, a) && Shape(c, b) && Alike(a, b)
    ensures Alike(DequeueIo(c, a), DequeueIo(c, b))
  {
    hide Put, Live, SameStatus, AllSuperseded, SpanTotal, ReadTotal, AnswerTotal;
    if a.readQueue == [] && a.writeQueue != [] {
      assert SameWrite(a.writeQueue[0], b.writeQueue[0]);
      SameLength(a.writeQueue[0], b.writeQueue[0]);
    }
  }

  lemma {:induction false} SameLength(v: Write, w: Write)
    requires SameWrite(v, w)
    ensures |v.span| == |w.span|
  {
  }

  lemma {:induction false} AlikeFlush(c: Config, a: State, b: State, k: nat)
    requires Shape(c, a) && Shape(c, b) && Alike(a, b)
    ensures Alike(Flush(c, a, k), Flush(c, b, k))
    decreases k
  {
    hide Shape, Alike, DequeueIo;
    if k > 0 {
      DequeueKeepsShape(c, a);
      DequeueKeepsShape(c, b);
      AlikeDequeue(c, a, b);
      AlikeFlush(c, DequeueIo(c, a), DequeueIo(c, b), k - 1);
    }
  }

  lemma {:induction false} AlikeDeliver(c: Config, a: State, b: State)
    requires Shape(c, a) && Shape(c, b) && Alike(a, b)
    ensures Shape(c, Deliver(a).0) && Shape(c, Deliver(b).0) && Alike(Deliver(a).0, Deliver(b).0)
  {
    hide Visible, Outstanding, AlikeReads, AlikeWrites;
    DeliverEffect(c, a);
    DeliverEffect(c, b);
  }

  lemma {:induction false} AlikeSecureRead(c: Config, a: State, b: State)
    requires Shape(c, a) && Shape(c, b) && Alike(a, b)
    ensures Shape(c, SecureRead(c, a).0) && Shape(c, SecureRead(c, b).0)
    ensures Alike(SecureRead(c, a).0, SecureRead(c, b).0)
  {
    hide Shape, Flush, AlikeReads, AlikeWrites, AlikeAnswers;
    AlikeDeliver(c, a, b);
    var x, y := Deliver(a).0, Deliver(b).0;
    AlikeFlush(c, x, y, |x.readQueue|);
    assert |x.readQueue| == |y.readQueue| by { SameReadCount(x, y); }
    AlikeDeliver(c, Flush(c, x, |x.readQueue|), Flush(c, y, |y.readQueue|));
  }

  lemma {:induction false} SameReadCount(a: State, b: State)
    requires Alike(a, b)
    ensures |a.readQueue| == |b.readQueue| && |a.writeQueue| == |b.writeQueue|
  {
  }

  lemma {:induction false} AlikeKeepFirst(a: seq<Frame>, b: seq<Frame>, k: nat)
    requires SameStatus(a, b)
    ensures SameStatus(KeepFirst(a, k), KeepFirst(b, k))
    decreases a
  {
    if a != [] {
      AlikeKeepFirst(a[1..], b[1..], if a[0].status != 'V' || k == 0 then k else k - 1);
    }
  }

  lemma {:induction false} AlikeElide(a: seq<Write>, b: seq<Write>, s: nat, n: nat)
    requires AlikeWrites(a, b)
    ensures AlikeWrites(Elide(a, s, n), Elide(b, s, n))
  {
    var x, y := Elide(a, s, n), Elide(b, s, n);
    forall i | 0 <= i < |x|
      ensures SameWrite(x[i], y[i])
    {
      assert SameWrite(a[i], b[i]);
      assert x[i] == ElideOne(a[i], s, n) && y[i] == ElideOne(b[i], s, n);
    }
  }

  lemma {:induction false} AlikeMerged(v: Write, w: Write, s: nat, x: seq<Value>, y: seq<Value>)
    requires SameWrite(v, w) && |x| == |y|
    requires Sequential(v, s) || RearOverlap(v, s, |x|)
    ensures SameWrite(Merged(v, s, x), Merged(w, s, y))
  {
    hide KeepFirst;
    if !Sequential(v, s) {
      AlikeKeepFirst(v.span, w.span, s - v.sector);
    }
  }

  lemma {:induction false} AlikeAttach(a: seq<Write>, b: seq<Write>, s: nat, x: seq<Value>, y: seq<Value>)
    requires AlikeWrites(a, b) && |x| == |y|
    ensures AlikeWrites(Attach(a, s, x), Attach(b, s, y))
  {
    hide KeepFirst, Merged;
    if a != [] {
      var k := |a| - 1;
      assert SameWrite(a[k], b[k]);
      if Sequential(a[k], s) || RearOverlap(a[k], s, |x|) {
        AlikeMerged(a[k], b[k], s, x, y);
      }
    }
  }

  lemma {:induction false} AlikeEnqueueWrite(a: State, b: State, s: nat, x: seq<Value>, y: seq<Value>)
    requires Alike(a, b) && |x| == |y|
    ensures Alike(EnqueueWrite(a, s, x), EnqueueWrite(b, s, y))
  {
    hide Elide, Attach, AlikeReads, AlikeWrites, AlikeAnswers;
    AlikeElide(a.writeQueue, b.writeQueue, s, |x|);
    AlikeAttach(Elide(a.writeQueue, s, |x|), Elide(b.writeQueue, s, |y|), s, x, y);
  }

  lemma {:induction false} AlikeAddRead(a: State, b: State, r: Read, t: Read)
    requires Alike(a, b) && r.sector == t.sector && r.length == t.length
    ensures Alike(a.(readQueue := a.readQueue + [r]), b.(readQueue := b.readQueue + [t]))
  {
    hide AlikeWrites, AlikeAnswers;
  }

  lemma {:induction false} AlikeEnqueueRead(c: Config, a: State, b: State, s: nat, n: nat)
    requires Shape(c, a) && Shape(c, b) && Alike(a, b)
    ensures Alike(EnqueueRead(c, a, s, n), EnqueueRead(c, b, s, n))
  {
    hide Shape, Flush, CopyOut, LastOverlap;
    SameLastOverlap(a.writeQueue, b.writeQueue, s, n);
    var k := LastOverlap(a.writeQueue, s, n);
    if k < 0 {
      AlikeAddRead(a, b, Read(s, n, None), Read(s, n, None));
    } else {
      var v, w := a.writeQueue[k], b.writeQueue[k];
      assert SameWrite(v, w);
      ShapeWrite(c, a, k);
      ShapeWrite(c, b, k);
      hide Alike;
      AlikeFlush(c, a, b, |a.readQueue| + k + 1);
      AlikeAddRead(Flush(c, a, |a.readQueue| + k + 1), Flush(c, b, |b.readQueue| + k + 1),
                   Read(s, n, if Covers(v, s, n) then Some(CopyOut(v, s, n)) else None),
                   Read(s, n, if Covers(w, s, n) then Some(CopyOut(w, s, n)) else None));
    }
  }

  lemma {:induction false} AlikeStep(c: Config, a: State, b: State, q: Request, p: Request)
    requires Shape(c, a) && Shape(c, b) && Alike(a, b) && SameRequest(q, p)
    ensures Alike(Step(c, a, q).0, Step(c, b, p).0)
  {
    hide Shape, Alike, Flush, EnqueueRead, EnqueueWrite, SecureRead, ReadFree, WriteFree;
    AlikeDeliver(c, a, b);
    var x, y := Deliver(a).0, Deliver(b).0;
    AlikeFree(c, x, y);
    match q
    case HostRead(s, n) =>
      if ReadFree(c, x) < n {
        AlikeSecureRead(c, x, y);
        AlikeEnqueueRead(c, SecureRead(c, x).0, SecureRead(c, y).0, s, n);
      } else {
        AlikeEnqueueRead(c, x, y, s, n);
      }
    case HostWrite(s, data) =>
      if WriteFree(c, x) < |data| {
        SameReadCount(x, y);
        AlikeFlush(c, x, y, |x.readQueue| + |x.writeQueue|);
        AlikeEnqueueWrite(Flush(c, x, |x.readQueue| + |x.writeQueue|), Flush(c, y, |y.readQueue| + |y.writeQueue|), s, data, p.data);
      } else {
        AlikeEnqueueWrite(x, y, s, data, p.data);
      }
  }

  lemma {:induction false} AlikeExposed(a: State, b: State, s: nat, n: nat)
    requires Alike(a, b)
    ensures Exposed(a, s, n) <==> Exposed(b, s, n)
  {
    hide NoSuperseded, LastOverlap, Exposed;
    var z := a.(writeQueue := b.writeQueue);
    SameExposed(a, z, s, n);
    assert Exposed(z, s, n) <==> Exposed(b, s, n) by { ExposedSame(z, b, s, n); }
  }

  lemma {:induction false} ExposedSame(a: State, b: State, s: nat, n: nat)
    requires a.writeQueue == b.writeQueue
    ensures Exposed(a, s, n) <==> Exposed(b, s, n)
  {
  }

  /** Whether a read arrives exposed does not depend on the data of any write. */
  lemma {:induction false} AlikeExposures(c: Config, a: State, b: State, qs: seq<Request>, ps: seq<Request>)
    requires Shape(c, a) && Shape(c, b) && Alike(a, b)
    requires RequestsOk(c, qs) && RequestsOk(c, ps) && SameRequests(qs, ps)
    ensures Exposures(c, a, qs) == Exposures(c, b, ps)
    decreases qs
  {
    hide Shape, Alike, Step, Exposed;
    if qs != [] {
      assert RequestOk(c, qs[0]) && RequestOk(c, ps[0]) && SameRequest(qs[0], ps[0]);
      StepEffect(c, a, qs[0]);
      StepEffect(c, b, ps[0]);
      AlikeStep(c, a, b, qs[0], ps[0]);
      AlikeExposed(a, b, qs[0].sector, if qs[0].HostRead? then qs[0].length else 1);
      AlikeExposures(c, Step(c, a, qs[0]).0, Step(c, b, ps[0]).0, qs[1..], ps[1..]);
    }
  }

  // ---------------------------------------------------------------------------------------------
  // A run that gives every written sector a value of its own

  function Labels(k: nat, n: nat): (x: seq<Value>)
    ensures |x| == n && forall i | 0 <= i < n :: |x[i]| == k + i
  {
    seq(n, i requires 0 <= i < n => seq(k + i, _ => 0 as bv8))
  }

  /** The same requests, writing labels from `k` on. */
  function Relabel(qs: seq<Request>, k: nat): (ps: seq<Request>)
    ensures SameRequests(qs, ps)
    decreases qs
  {
    if qs == [] then []
    else match qs[0]
      case HostRead(_, _) => [qs[0]] + Relabel(qs[1..], k)
      case HostWrite(s, x) => [HostWrite(s, Labels(k, |x|))] + Relabel(qs[1..], k + |x|)
  }

  lemma {:induction false} SameRequestsOk(c: Config, qs: seq<Request>, ps: seq<Request>)
    requires RequestsOk(c, qs) && SameRequests(qs, ps)
    ensures RequestsOk(c, ps)
  {
    forall i | 0 <= i < |ps|
      ensures RequestOk(c, ps[i])
    {
      assert RequestOk(c, qs[i]) && SameRequest(qs[i], ps[i]);
    }
  }

  predicate Labelled(ws: seq<Write>, k: nat) {
    forall i | 0 <= i < |ws| :: Rising(ws[i].span, k)
  }

  lemma {:induction false} RisingFresh(fs: seq<Frame>, k: nat, n: nat)
    requires Rising(fs, k)
    ensures Rising(fs + Fresh(Labels(k, n)), k + n)
  {
    hide Labels;
  }

  lemma {:induction false} RisingRaw(a: seq<Frame>, b: seq<Frame>, k: nat)
    requires Rising(a, k) && |a| == |b| && forall i | 0 <= i < |a| :: a[i].value == b[i].value
    ensures Rising(b, k)
  {
  }

  lemma {:induction false} LabelledElide(ws: seq<Write>, s: nat, n: nat, k: nat)
    requires Labelled(ws, k)
    ensures Labelled(Elide(ws, s, n), k)
  {
    hide Rising;
    var r := Elide(ws, s, n);
    forall i | 0 <= i < |r|
      ensures Rising(r[i].span, k)
    {
      assert Rising(ws[i].span, k) && r[i] == ElideOne(ws[i], s, n);
      RisingRaw(ws[i].span, r[i].span, k);
    }
  }

  lemma {:induction false} RisingMerged(t: Write, s: nat, n: nat, k: nat, sectors: nat)
    requires WriteOk(t, sectors) && Rising(t.span, k)
    requires Sequential(t, s) || RearOverlap(t, s, n)
    ensures Rising(Merged(t, s, Labels(k, n)).span, k + n)
  {
    hide Rising, KeepFirst, Labels, Live;
    if Sequential(t, s) {
      RisingFresh(t.span, k, n);
    } else {
      var fs := KeepFirst(t.span, s - t.sector);
      LiveKeepFirst(t.span, s - t.sector);
      assert forall i | 0 <= i < |fs| :: Raw(fs)[i] == Raw(t.span)[i];
      RisingRaw(t.span, fs, k);
      RisingFresh(fs, k, n);
    }
  }

  lemma {:induction false} RisingMore(fs: seq<Frame>, k: nat, n: nat)
    requires Rising(fs, k)
    ensures Rising(fs, k + n)
  {
  }

  lemma {:induction false} LabelledAttach(ws: seq<Write>, s: nat, n: nat, k: nat, sectors: nat)
    requires WritesOk(ws, sectors) && Labelled(ws, k)
    ensures Labelled(Attach(ws, s, Labels(k, n)), k + n)
  {
    hide Rising, Merged, Labels;
    forall i | 0 <= i < |ws|
      ensures Rising(ws[i].span, k + n)
    {
      RisingMore(ws[i].span, k, n);
    }
    if ws != [] && (Sequential(ws[|ws| - 1], s) || RearOverlap(ws[|ws| - 1], s, n)) {
      assert WriteOk(ws[|ws| - 1], sectors);
      RisingMerged(ws[|ws| - 1], s, n, k, sectors);
    } else {
      assert Rising([], k) by { NoneRising(k); }
      RisingFresh([], k, n);
      assert [] + Fresh(Labels(k, n)) == Fresh(Labels(k, n));
    }
  }

  lemma {:induction false} NoneRising(k: nat)
    ensures Rising([], k)
  {
  }

  /** Frames of the queue are only ever removed from the front. */
  lemma {:induction false} LabelledRead(c: Config, st: State, s: nat, n: nat, k: nat)
    requires Shape(c, st) && Labelled(st.writeQueue, k)
    ensures Labelled(SsdRead(c, st, s, n).0.writeQueue, k)
  {
    hide Shape, Flush, Rising, Visible, Outstanding, AllInRange, Replay, CopyOut, SecureRead, ReadFree, LastOverlap;
    DeliverEffect(c, st);
    var a := Deliver(st).0;
    var b := if ReadFree(c, a) < n then SecureRead(c, a).0 else a;
    SecureReadEffect(c, a);
    var j := LastOverlap(b.writeQueue, s, n);
    if j >= 0 {
      FlushTakesPrefix(c, b, j + 1);
      ShapeWrite(c, b, j);
    }
  }

  lemma {:induction false} LabelledWrite(c: Config, st: State, s: nat, n: nat, k: nat)
    requires Shape(c, st) && Labelled(st.writeQueue, k)
    ensures Labelled(SsdWrite(c, st, s, Labels(k, n)).0.writeQueue, k + n)
  {
    hide Flush, Labelled, Visible, Outstanding, WriteFree, Labels, Attach, Elide, WritesOk, AnswersOk, ReadsOk,
         AllSuperseded, ReadFree;
    DeliverEffect(c, st);
    var a := Deliver(st).0;
    var b := if WriteFree(c, a) < n then Flush(c, a, |a.readQueue| + |a.writeQueue|) else a;
    FlushAllEmpties(c, a);
    assert Labelled(b.writeQueue, k) by { NoneLabelled(k); }
    ElideOk(b.writeQueue, s, n, c.sectors);
    LabelledElide(b.writeQueue, s, n, k);
    LabelledAttach(Elide(b.writeQueue, s, n), s, n, k, c.sectors);
  }

  lemma {:induction false} NoneLabelled(k: nat)
    ensures Labelled([], k)
  {
  }

  /** With every written sector labelled, an exposed read gets a wrong last sector. */
  lemma {:induction false} LabelledIsWrong(c: Config, st: State, s: nat, n: nat, k: nat)
    requires Shape(c, st) && RequestOk(c, HostRead(s, n)) && Exposed(st, s, n) && Labelled(st.writeQueue, k)
    ensures Promise(c, st, s, n) != Answer(s, n, Visible(c, st)[s..s + n])
  {
    hide Live, Shape, Promise, Visible, Rising, NoSuperseded, LastOverlap;
    var j := LastOverlap(st.writeQueue, s, n);
    assert Rising(st.writeQueue[j].span, k);
    RisingIsWrong(c, st, s, n, j, k);
  }

  lemma {:induction false} LabelledRunWrong(c: Config, st: State, qs: seq<Request>, k: nat, i: nat)
    requires Shape(c, st) && Labelled(st.writeQueue, k) && RequestsOk(c, Relabel(qs, k))
    requires i < |Exposures(c, st, Relabel(qs, k))| && Exposures(c, st, Relabel(qs, k))[i]
    ensures var got, plain := Promises(c, st, Relabel(qs, k)), PlainRun(c, Visible(c, st), Relabel(qs, k)).1;
            |got| == |plain| && i < |got| && got[i] != plain[i]
    decreases qs
  {
    hide Shape, Visible, Exposed, SsdRead, SsdWrite, Promise, Put, Labelled, Labels, SameRequests, RequestOk;
    var ps := Relabel(qs, k);
    PromisesFaithful(c, st, ps);
    if qs != [] {
      assert RequestOk(c, ps[0]);
      StepEffect(c, st, ps[0]);
      var a := Step(c, st, ps[0]).0;
      match qs[0]
      case HostRead(s, n) =>
        assert ps[1..] == Relabel(qs[1..], k);
        LabelledRead(c, st, s, n, k);
        if i == 0 {
          LabelledIsWrong(c, st, s, n, k);
        } else {
          LabelledRunWrong(c, a, qs[1..], k, i - 1);
        }
      case HostWrite(s, x) =>
        assert ps[1..] == Relabel(qs[1..], k + |x|);
        LabelledWrite(c, st, s, |x|, k);
        LabelledRunWrong(c, a, qs[1..], k + |x|, i);
    }
  }

  // ---------------------------------------------------------------------------------------------
  // The exact condition

  /** What the host gets for its reads, in arrival order, by the time the buffer is shut down. */
  function HostAnswers(c: Config, flash: seq<Value>, qs: seq<Request>): seq<Answer>
    requires |flash| == c.sectors && RequestsOk(c, qs)
  {
    RunEffect(c, InitState(c, flash), qs);
    var (r, out) := Run(c, InitState(c, flash), qs);
    out + Flush(c, r, |r.readQueue| + |r.writeQueue|).completed
  }

  /** The i-th read is answered as the plain disk answers it. */
  predicate AnsweredRight(c: Config, flash: seq<Value>, qs: seq<Request>, i: nat)
    requires |flash| == c.sectors && RequestsOk(c, qs)
  {
    var got, plain := HostAnswers(c, flash, qs), PlainRun(c, flash, qs).1;
    i < |got| && i < |plain| && got[i] == plain[i]
  }

  /** From power-on, for every sequence of requests: the i-th read is answered right whatever data the writes
      carry if and only if it does not arrive exposed. */
  lemma {:induction false} RunAnsweredRightIff(c: Config, flash: seq<Value>, qs: seq<Request>, i: nat)
    requires |flash| == c.sectors && RequestsOk(c, qs) && i < |Exposures(c, InitState(c, flash), qs)|
    ensures (forall ps | SameRequests(qs, ps) && RequestsOk(c, ps) :: AnsweredRight(c, flash, ps, i))
            <==> !Exposures(c, InitState(c, flash), qs)[i]
  {
    hide Exposures, PlainRun, HostAnswers, Promises, Relabel, SameRequests;
    var st := InitState(c, flash);
    forall ps | SameRequests(qs, ps) && RequestsOk(c, ps)
      ensures HostAnswers(c, flash, ps) == Promises(c, st, ps)
      ensures Exposures(c, st, ps) == Exposures(c, st, qs)
      ensures !Exposures(c, st, qs)[i] ==> AnsweredRight(c, flash, ps, i)
    {
      AnswersArePromises(c, flash, ps);
      AlikeExposures(c, st, st, qs, ps);
      PromisesFaithful(c, st, ps);
    }
    if Exposures(c, st, qs)[i] {
      var ps := Relabel(qs, 0);
      SameRequestsOk(c, qs, ps);
      LabelledRunWrong(c, st, qs, 0, i);
      assert !AnsweredRight(c, flash, ps, i);
    }
  }

  lemma {:induction false} AnswersArePromises(c: Config, flash: seq<Value>, qs: seq<Request>)
    requires |flash| == c.sectors && RequestsOk(c, qs)
    ensures HostAnswers(c, flash, qs) == Promises(c, InitState(c, flash), qs)
  {
    hide Promises, PlainRun, Run, Flush;
    TerminateDurable(c, flash, qs);
  }
}
