/** The firmware I/O buffer driven by a host, from power-on to shutdown. */
module BufferSessions {
  import opened Disk
  import Spec = BufferSpec
  import opened BufferTheorems
  import opened BufferRuns
  import opened BufferTiming
  import opened WriteRings
  import opened ReadRings
  import opened EventQueues
  import opened IoBuffers

  /** SSD_READ or SSD_WRITE, as the host asks. */
  method ServeOne(b: IoBuffer, r: Spec.Request) returns (out: seq<Spec.Answer>)
    requires b.Valid() && Spec.RequestOk(b.c, r)
    modifies b, b.q, b.wb, b.wb.valid, b.wb.data, b.rb, b.rb.data
    ensures b.Valid() && (b.m, out) == Step(b.c, old(b.m), r)
  {
    hide IoBuffer.Valid, Spec.Shape, Spec.SsdRead, Spec.SsdWrite;
    BufferShape(b);
    var ok;
    match r
    case HostRead(s, n) =>
      out, ok := b.SsdRead(s, n);
    case HostWrite(s, x) =>
      out, ok := b.SsdWrite(s, x);
  }

  lemma {:induction false} BufferShape(b: IoBuffer)
    requires b.Valid()
    ensures Spec.Shape(b.c, b.m)
  {
  }

  /** A run of requests: `out` is what the host got meanwhile. */
  method Serve(b: IoBuffer, qs: seq<Spec.Request>) returns (out: seq<Spec.Answer>)
    requires b.Valid() && RequestsOk(b.c, qs)
    modifies b, b.q, b.wb, b.wb.valid, b.wb.data, b.rb, b.rb.data
    ensures b.Valid() && Spec.Shape(b.c, old(b.m)) && (b.m, out) == Run(b.c, old(b.m), qs)
  {
    hide IoBuffer.Valid, Spec.Shape, Step;
    BufferShape(b);
    ghost var total := Run(b.c, b.m, qs);
    out := [];
    var i := 0;
    assert qs[0..] == qs && out + total.1 == total.1;
    while i < |qs|
      invariant 0 <= i <= |qs| && b.Valid() && Spec.Shape(b.c, b.m) && RequestsOk(b.c, qs[i..])
      invariant total == (Run(b.c, b.m, qs[i..]).0, out + Run(b.c, b.m, qs[i..]).1)
    {
      assert qs[i..][0] == qs[i] && qs[i..][1..] == qs[i + 1..];
      StepEffect(b.c, b.m, qs[i]);
      ghost var st := b.m;
      var more := ServeOne(b, qs[i]);
      assert out + (more + Run(b.c, b.m, qs[i + 1..]).1) == out + more + Run(b.c, b.m, qs[i + 1..]).1;
      out := out + more;
      i := i + 1;
    }
    assert Run(b.c, b.m, qs[i..]) == (b.m, []) && out + [] == out;
  }

  /** One answer for each read, in arrival order and, unless the read arrived exposed, with what a plain disk
      holds at that moment. */
  ghost predicate ServedRight(c: Spec.Config, flash: seq<Value>, qs: seq<Spec.Request>, out: seq<Spec.Answer>)
    requires |flash| == c.sectors && RequestsOk(c, qs)
  {
    var plain, ex := PlainRun(c, flash, qs).1, Exposures(c, Spec.InitState(c, flash), qs);
    && |out| == |plain| == |ex|
    && forall i | 0 <= i < |out| && !ex[i] :: out[i] == plain[i]
  }

  /** A whole session: power on, any requests, SECURE_READ_BUFFER, TERM_IO_BUFFER. The host is served
      right and the flash ends up as the plain disk does. */
  method Session(c: Spec.Config, pageSectors: nat, newPage: nat -> bool, flash: seq<Value>, mapped: set<nat>,
                 qs: seq<Spec.Request>) returns (b: IoBuffer, out: seq<Spec.Answer>)
    requires c.writeFrames > 0 && c.readFrames > 0 && pageSectors > 0 && |flash| == c.sectors && forall k :: newPage(k)
    requires RequestsOk(c, qs)
    ensures b.Valid() && b.flash == PlainRun(c, flash, qs).0
    ensures out == HostAnswers(c, flash, qs) && ServedRight(c, flash, qs, out)
  {
    hide IoBuffer.Valid, Run, Exposures, PlainRun, HostAnswers, Promises, Spec.SecureRead, Outstanding, Visible;
    b := IoBuffer.Init(c, pageSectors, newPage, flash, mapped);
    ghost var st := b.m;
    out := Serve(b, qs);
    BufferShape(b);
    AfterRun(c, flash, qs);
    ghost var r := b.m;
    SecureReadEffect(c, r);
    var more, ok := b.SecureRead();
    SecureOwesNothing(c, r);
    assert more == Outstanding(c, r);
    out := out + more;
    b.Terminate();
  }

  /** What a run promises, gathered. */
  lemma {:induction false} AfterRun(c: Spec.Config, flash: seq<Value>, qs: seq<Spec.Request>)
    requires |flash| == c.sectors && RequestsOk(c, qs)
    ensures var st := Spec.InitState(c, flash);
            var (r, out) := Run(c, st, qs);
            && Spec.Shape(c, r) && Visible(c, r) == PlainRun(c, flash, qs).0
            && out + Outstanding(c, r) == HostAnswers(c, flash, qs)
            && ServedRight(c, flash, qs, HostAnswers(c, flash, qs))
  {
    hide Run, PlainRun, Exposures, Promises, HostAnswers, Visible;
    var st := Spec.InitState(c, flash);
    AnswersArePromises(c, flash, qs);
    PowerOnVisible(c, flash);
    RunEffect(c, st, qs);
    PromisesFaithful(c, st, qs);
  }

  lemma {:induction false} PowerOnVisible(c: Spec.Config, flash: seq<Value>)
    requires |flash| == c.sectors
    ensures var st := Spec.InitState(c, flash); Spec.Shape(c, st) && Visible(c, st) == flash && Outstanding(c, st) == []
  {
  }
}
