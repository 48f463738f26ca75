/** The one way a read can be answered wrongly, and exactly when. COPY_DATA_TO_READ_BUFFER runs after the
    flush has reset the 'I' marks, so it no longer skips superseded frames. */
module BufferDefect {
  import opened Disk
  import opened Frames
  import opened BufferSpec
  import opened BufferWrites
  import opened BufferTheorems
  import opened BufferScans

  /** The same queues and frame statuses, with any data. */
  predicate SameButData(a: State, b: State) {
    && a.readQueue == b.readQueue && a.completed == b.completed && a.leftover == b.leftover && |a.flash| == |b.flash|
    && |a.writeQueue| == |b.writeQueue|
    && forall i :: 0 <= i < |a.writeQueue| ==> SameWrite(a.writeQueue[i], b.writeQueue[i])
  }

  predicate SameWrite(v: Write, w: Write) {
    v.valid == w.valid && v.sector == w.sector && v.length == w.length && SameStatus(v.span, w.span)
  }

  lemma {:induction false} SameLastOverlap(a: seq<Write>, b: seq<Write>, s: nat, n: nat)
    requires |a| == |b| && forall i :: 0 <= i < |a| ==> SameWrite(a[i], b[i])
    ensures LastOverlap(a, s, n) == LastOverlap(b, s, n)
  {
  }

  lemma {:induction false} SameExposed(a: State, b: State, s: nat, n: nat)
    requires SameButData(a, b)
    ensures Exposed(a, s, n) <==> Exposed(b, s, n)
  {
    hide NoSuperseded, LastOverlap;
    SameLastOverlap(a.writeQueue, b.writeQueue, s, n);
    var k := LastOverlap(a.writeQueue, s, n);
    if k >= 0 {
      var v, w := a.writeQueue[k], b.writeQueue[k];
      assert SameWrite(v, w);
      if v.sector <= s && s - v.sector + n <= |v.span| {
        SameSuperseded(v.span, w.span, s - v.sector + n);
      }
    }
  }

  /** A state with other data in the span of one write. */
  lemma {:induction false} Renumber(c: Config, st: State, k: nat) returns (z: State)
    requires Shape(c, st) && k < |st.writeQueue|
    ensures z == st.(writeQueue := st.writeQueue[k := st.writeQueue[k].(span := Numbered(st.writeQueue[k].span))])
    ensures Shape(c, z) && SameButData(st, z)
  {
    hide WriteOk, Numbered, SpanTotal, ReadTotal, AnswerTotal;
    var ws := st.writeQueue;
    var w := ws[k].(span := Numbered(ws[k].span));
    z := st.(writeQueue := ws[k := w]);
    RenumberedOk(ws[k], c.sectors);
    PrefixTotals(ws, k, w, |ws|);
    assert ws[..|ws|] == ws && z.writeQueue[..|ws|] == z.writeQueue;
  }

  lemma {:induction false} RenumberedOk(w: Write, sectors: nat)
    requires WriteOk(w, sectors)
    ensures WriteOk(w.(span := Numbered(w.span)), sectors)
  {
    hide Live, Numbered;
    LiveCountByStatus(w.span, Numbered(w.span));
  }

  /** With values that name the frames, an exposed read gets a wrong last sector. */
  lemma {:induction false} RisingIsWrong(c: Config, z: State, s: nat, n: nat, j: nat, k: nat)
    requires Shape(c, z) && s + n <= c.sectors && n >= 1 && Exposed(z, s, n)
    requires LastOverlap(z.writeQueue, s, n) == j && Rising(z.writeQueue[j].span, k)
    ensures Promise(c, z, s, n) != Answer(s, n, Visible(c, z)[s..s + n])
  {
    hide Live, Replay, Rising, NoSuperseded, LastOverlap, AllInRange;
    var w := z.writeQueue[j];
    var off := s - w.sector;
    assert WriteOk(w, c.sectors);
    VisibleUpTo(c, z, s, n, j);
    CoveredSlice(c, z, s, n, j);
    LiveRises(w.span, k, off + n - 1);
    assert CopyOut(w, s, n)[n - 1] == w.span[off + n - 1].value;
    assert Visible(c, z)[s..s + n][n - 1] == Live(w.span)[off + n - 1];
  }

  /** A read is answered correctly whatever data the frames hold if and only if it does not arrive exposed:
      the last overlapping write does not cover it, or no superseded frame of that write comes before the
      end of the requested sectors. */
  lemma {:induction false} AnsweredRightIff(c: Config, st: State, s: nat, n: nat)
    requires Shape(c, st) && RequestOk(c, HostRead(s, n))
    ensures (forall z | Shape(c, z) && SameButData(st, z) :: Promise(c, z, s, n) == Answer(s, n, Visible(c, z)[s..s + n]))
            <==> !Exposed(st, s, n)
  {
    hide Promise, Visible, Shape, Exposed, SameButData;
    forall z | Shape(c, z) && SameButData(st, z) && !Exposed(st, s, n)
      ensures Promise(c, z, s, n) == Answer(s, n, Visible(c, z)[s..s + n])
    {
      SameExposed(st, z, s, n);
      PromiseCorrect(c, z, s, n);
    }
    if Exposed(st, s, n) {
      var z := ExposedIsWrong(c, st, s, n);
      assert Promise(c, z, s, n) != Answer(s, n, Visible(c, z)[s..s + n]);
    }
  }

  lemma {:induction false} ExposedIsWrong(c: Config, st: State, s: nat, n: nat) returns (z: State)
    requires Shape(c, st) && RequestOk(c, HostRead(s, n)) && Exposed(st, s, n)
    ensures Shape(c, z) && SameButData(st, z)
    ensures Promise(c, z, s, n) != Answer(s, n, Visible(c, z)[s..s + n])
  {
    hide Promise, Visible, Live, Replay, Numbered, NoSuperseded;
    var k := LastOverlap(st.writeQueue, s, n);
    assert WriteOk(st.writeQueue[k], c.sectors);
    z := Renumber(c, st, k);
    SameLastOverlap(st.writeQueue, z.writeQueue, s, n);
    SameExposed(st, z, s, n);
    RisingIsWrong(c, z, s, n, k, |st.writeQueue[k].span|);
  }

  // ---------------------------------------------------------------------------------------------
  // A concrete run: write sectors 0-3, overwrite sectors 2-5, read sectors 4-5

  const A: Value := [0xAA]
  const B: Value := [0xBB]
  const D: Value := [0xDD]
  const DEMO_CONFIG := Config(8, 4, 8)
  const BLANK: seq<Value> := [[], [], [], [], [], [], [], []]
  const FIRST := HostWrite(0, [A, A, A, A])
  const SECOND := HostWrite(2, [B, B, D, D])
  const THIRD := HostRead(4, 2)

  function Demo0(): State { InitState(DEMO_CONFIG, BLANK) }

  function Demo1(): State {
    State([], [Write(true, 0, 4, Fresh([A, A, A, A]))], [], [], BLANK)
  }

  /** The second write was merged into the first; two frames are superseded. */
  function Demo2(): State {
    State([], [Write(true, 0, 6, [Frame('V', A), Frame('V', A), Frame('I', A), Frame('I', A)] + Fresh([B, B, D, D]))], [], [], BLANK)
  }

  lemma {:induction false} DemoFirst()
    ensures Shape(DEMO_CONFIG, Demo0()) && Step(DEMO_CONFIG, Demo0(), FIRST) == (Demo1(), [])
  {
    assert Elide([], 0, 4) == [];
    assert [] + [Write(true, 0, 4, Fresh([A, A, A, A]))] == [Write(true, 0, 4, Fresh([A, A, A, A]))];
  }

  lemma {:induction false} DemoKeep()
    ensures KeepFirst(Fresh([A, A, A, A]), 2) == [Frame('V', A), Frame('V', A), Frame('I', A), Frame('I', A)]
  {
    var f := Fresh([A, A, A, A]);
    forall j | 0 <= j < 4 ensures KeepFirst(f, 2)[j] == [Frame('V', A), Frame('V', A), Frame('I', A), Frame('I', A)][j] {
      KeepFirstAt(f, 2, j);
      assert f[..j] == Fresh([A, A, A, A][..j]);
      LiveFresh([A, A, A, A][..j]);
    }
  }

  lemma {:induction false} DemoSecond()
    requires Shape(DEMO_CONFIG, Demo1())
    ensures Step(DEMO_CONFIG, Demo1(), SECOND) == (Demo2(), [])
  {
    hide Live, KeepFirst, Shape;
    DemoKeep();
    var ws := Demo1().writeQueue;
    assert ws[1..] == [];
    assert SpanTotal(ws) == 4;
    assert Elide(ws, 2, 4) == ws;
    assert ws[..0] + [Demo2().writeQueue[0]] == Demo2().writeQueue;
  }

  lemma {:induction false} DemoLive()
    ensures Live(Demo2().writeQueue[0].span) == [A, A, B, B, D, D]
  {
    var x, y := [Frame('V', A), Frame('V', A)], [Frame('I', A), Frame('I', A)];
    assert x == Fresh([A, A]);
    LiveFresh([A, A]);
    LiveNone(y);
    LiveFresh([B, B, D, D]);
    LiveConcat(x, y);
    LiveConcat(x + y, Fresh([B, B, D, D]));
    assert Demo2().writeQueue[0].span == x + y + Fresh([B, B, D, D]);
  }

  /** The read is promised the data of sectors 2-3 instead of sectors 4-5. */
  lemma {:induction false} DemoThird()
    requires Shape(DEMO_CONFIG, Demo2())
    ensures Promise(DEMO_CONFIG, Demo2(), 4, 2) == Answer(4, 2, [B, B])
    ensures Visible(DEMO_CONFIG, Demo2())[4..6] == [D, D]
  {
    hide Live, Replay;
    DemoLive();
    var w := Demo2().writeQueue[0];
    ReplayOne(BLANK, w);
    assert w.span[4..6] == Fresh([B, B, D, D])[..2];
    assert Raw(w.span[4..6]) == [B, B];
  }

  lemma {:induction false} DemoBlank()
    requires Shape(DEMO_CONFIG, Demo0())
    ensures Visible(DEMO_CONFIG, Demo0()) == BLANK
  {
  }

  /** A run in which the firmware's answer differs from the plain disk's. */
  lemma {:induction false} DemoRun()
    ensures var qs := [FIRST, SECOND, THIRD];
            && RequestsOk(DEMO_CONFIG, qs) && Shape(DEMO_CONFIG, Demo0())
            && Promises(DEMO_CONFIG, Demo0(), qs) == [Answer(4, 2, [B, B])]
            && PlainRun(DEMO_CONFIG, BLANK, qs).1 == [Answer(4, 2, [D, D])]
  {
    hide Live, Shape, Step, Promise, Visible, Put, Replay;
    var c, qs := DEMO_CONFIG, [FIRST, SECOND, THIRD];
    DemoFirst();
    StepEffect(c, Demo0(), FIRST);
    DemoSecond();
    StepEffect(c, Demo1(), SECOND);
    DemoThird();
    assert qs[1..] == [SECOND, THIRD] && qs[1..][1..] == [THIRD] && [THIRD][1..] == [];
    assert Promises(c, Demo2(), [THIRD]) == [Answer(4, 2, [B, B])];
    DemoBlank();
    assert PlainRun(c, Visible(c, Demo2()), [THIRD]).1 == [Answer(4, 2, [D, D])];
    assert PlainRun(c, Visible(c, Demo1()), [SECOND, THIRD]).1 == [Answer(4, 2, [D, D])];
  }
}
