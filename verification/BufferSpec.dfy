/** What the firmware I/O buffer does to its queues, its frames and the flash, on values.
    The imperative IoBuffer is proved to follow these functions step by step; the theorems about
    whole runs are in BufferTheorems. */
module BufferSpec {
  import opened Options
  import opened Disk
  import opened Frames

  /** A queued host write and the ring frames it owns. */
  datatype Write = Write(valid: bool, sector: nat, length: nat, span: seq<Frame>)

  /** A queued host read; `copied` is the data already placed in the read buffer, if any. */
  datatype Read = Read(sector: nat, length: nat, copied: Option<seq<Value>>)

  /** What the host receives for a read. */
  datatype Answer = Answer(sector: nat, length: nat, data: seq<Value>)

  datatype Request = HostRead(sector: nat, length: nat) | HostWrite(sector: nat, data: seq<Value>)

  /** WRITE_BUFFER_FRAME_NB, READ_BUFFER_FRAME_NB and SECTOR_NB. */
  datatype Config = Config(writeFrames: nat, readFrames: nat, sectors: nat)

  /** The event queue is `readQueue` followed by `writeQueue`. The ring holds, from the FTL pointer to the
      SATA pointer, the `leftover` frames of dropped writes and then the span of each write. */
  datatype State = State(readQueue: seq<Read>, writeQueue: seq<Write>, completed: seq<Answer>,
                         leftover: seq<Frame>, flash: seq<Value>)

  predicate Overlaps(w: Write, s: nat, n: nat) {
    w.sector < s + n && s < w.sector + w.length
  }

  /** The read [s, s+n) lies inside the write. */
  predicate Covers(w: Write, s: nat, n: nat) {
    w.sector <= s && s + n <= w.sector + w.length
  }

  /** The write is hidden by a new write to [s, s+n). */
  predicate Overwritten(w: Write, s: nat, n: nat) {
    s <= w.sector && w.sector + w.length <= s + n
  }

  /** Index of the last valid write that overlaps [s, s+n), or -1. */
  function LastOverlap(ws: seq<Write>, s: nat, n: nat): (k: int)
    ensures -1 <= k < |ws|
    ensures k >= 0 ==> ws[k].valid && Overlaps(ws[k], s, n)
    ensures forall i :: k < i < |ws| ==> !(ws[i].valid && Overlaps(ws[i], s, n))
  {
    if ws == [] then -1
    else if ws[|ws| - 1].valid && Overlaps(ws[|ws| - 1], s, n) then |ws| - 1
    else LastOverlap(ws[..|ws| - 1], s, n)
  }

  /** Number of ring frames the writes occupy. */
  function SpanTotal(ws: seq<Write>): nat {
    if ws == [] then 0 else |ws[0].span| + SpanTotal(ws[1..])
  }

  /** The frames of the writes, in ring order. */
  function Spans(ws: seq<Write>): (fs: seq<Frame>)
    ensures |fs| == SpanTotal(ws)
  {
    if ws == [] then [] else ws[0].span + Spans(ws[1..])
  }

  function ReadTotal(rs: seq<Read>): nat {
    if rs == [] then 0 else rs[0].length + ReadTotal(rs[1..])
  }

  function AnswerTotal(xs: seq<Answer>): nat {
    if xs == [] then 0 else xs[0].length + AnswerTotal(xs[1..])
  }

  function WriteFree(c: Config, st: State): int {
    c.writeFrames - |st.leftover| - SpanTotal(st.writeQueue)
  }

  function ReadFree(c: Config, st: State): int {
    c.readFrames - ReadTotal(st.readQueue) - AnswerTotal(st.completed)
  }

  /** The sectors a write puts on flash fit on the device. */
  predicate InRange(w: Write, sectors: nat) {
    w.sector + |Live(w.span)| <= sectors
  }

  predicate AllInRange(ws: seq<Write>, sectors: nat) {
    forall i :: 0 <= i < |ws| ==> InRange(ws[i], sectors)
  }

  /** Executes the queued writes in order. */
  function Replay(d: seq<Value>, ws: seq<Write>): (r: seq<Value>)
    requires AllInRange(ws, |d|)
    ensures |r| == |d|
    decreases ws
  {
    if ws == [] then d
    else
      assert InRange(ws[0], |d|);
      Replay(Put(d, ws[0].sector, Live(ws[0].span)), ws[1..])
  }

  /** What a queued read is going to return. */
  function Answered(r: Read, flash: seq<Value>): Answer
    requires r.sector + r.length <= |flash|
  {
    Answer(r.sector, r.length,
           match r.copied case Some(x) => x case None => flash[r.sector..r.sector + r.length])
  }

  predicate WriteOk(w: Write, sectors: nat) {
    && w.length >= 1 && w.sector + w.length <= sectors
    && w.span != [] && Pending(w.span)
    && |Live(w.span)| == (if w.valid then w.length else 0)
    && (w.valid ==> w.span[|w.span| - 1].status == 'V')
  }

  predicate ReadOk(r: Read, sectors: nat) {
    && r.length >= 1 && r.sector + r.length <= sectors
    && (r.copied.Some? ==> |r.copied.value| == r.length)
  }

  predicate AnswerOk(a: Answer) {
    a.length >= 1 && |a.data| == a.length
  }

  predicate WritesOk(ws: seq<Write>, sectors: nat) {
    forall i :: 0 <= i < |ws| ==> WriteOk(ws[i], sectors)
  }

  predicate ReadsOk(rs: seq<Read>, sectors: nat) {
    && (forall i :: 0 <= i < |rs| ==> ReadOk(rs[i], sectors))
    && (forall i :: 1 <= i < |rs| ==> rs[i].copied.None?)
  }

  predicate AnswersOk(xs: seq<Answer>) {
    forall i :: 0 <= i < |xs| ==> AnswerOk(xs[i])
  }

  /** The shape of every reachable state: the spans fill the ring between the FTL and SATA pointers,
      a valid span has one 'V' frame per sector and ends in one, the last queued write is valid, and
      at most the first queued read was answered from the write buffer. */
  predicate Shape(c: Config, st: State) {
    && |st.flash| == c.sectors
    && WritesOk(st.writeQueue, c.sectors)
    && ReadsOk(st.readQueue, c.sectors)
    && AnswersOk(st.completed)
    && AllSuperseded(st.leftover)
    && (if st.writeQueue == [] then st.leftover == [] else st.writeQueue[|st.writeQueue| - 1].valid)
    && WriteFree(c, st) >= 0
    && ReadFree(c, st) >= 0
  }

  predicate RequestOk(c: Config, q: Request) {
    match q
    case HostRead(s, n) => 1 <= n <= c.readFrames && s + n <= c.sectors
    case HostWrite(s, x) => 1 <= |x| <= c.writeFrames && s + |x| <= c.sectors
  }

  // ---------------------------------------------------------------------------------------------
  // The operations

  function InitState(c: Config, flash: seq<Value>): State {
    State([], [], [], [], flash)
  }

  /** Takes the first event off the queue: a read is answered, a valid write goes to flash and frees
      the frames up to its end, an invalid write is dropped and its frames stay behind. */
  function DequeueIo(c: Config, st: State): State
    requires Shape(c, st)
  {
    if st.readQueue != [] then
      assert ReadOk(st.readQueue[0], |st.flash|);
      st.(readQueue := st.readQueue[1..], completed := st.completed + [Answered(st.readQueue[0], st.flash)])
    else if st.writeQueue != [] then
      var w := st.writeQueue[0];
      assert WriteOk(w, |st.flash|);
      if w.valid then
        st.(writeQueue := st.writeQueue[1..], leftover := [], flash := Put(st.flash, w.sector, Live(w.span)))
      else
        st.(writeQueue := st.writeQueue[1..], leftover := st.leftover + w.span)
    else st
  }

  /** Takes `k` events off the queue. */
  function Flush(c: Config, st: State, k: nat): (r: State)
    requires Shape(c, st)
    ensures Shape(c, r)
    decreases k
  {
    if k == 0 then st
    else
      DequeueKeepsShape(c, st);
      Flush(c, DequeueIo(c, st), k - 1)
  }

  /** Hands every completed read to the host. */
  function Deliver(st: State): (State, seq<Answer>) {
    (st.(completed := []), st.completed)
  }

  /** SECURE_READ_BUFFER: completes and delivers every queued read. */
  function SecureRead(c: Config, st: State): (State, seq<Answer>)
    requires Shape(c, st)
  {
    var (a, out) := Deliver(st);
    var b := Flush(c, a, |a.readQueue|);
    (Deliver(b).0, out + Deliver(b).1)
  }

  /** Drops the pending writes that the new write hides. */
  function Elide(ws: seq<Write>, s: nat, n: nat): (r: seq<Write>)
    ensures |r| == |ws|
    ensures forall i :: 0 <= i < |ws| ==> r[i] == ElideOne(ws[i], s, n)
  {
    seq(|ws|, i requires 0 <= i < |ws| => ElideOne(ws[i], s, n))
  }

  function ElideOne(w: Write, s: nat, n: nat): Write {
    if w.valid && Overwritten(w, s, n) then w.(valid := false, span := Mark(w.span, 'I')) else w
  }

  /** The new write continues the last one. */
  predicate Sequential(w: Write, s: nat) {
    w.valid && w.sector + w.length == s
  }

  /** The new write starts inside the last one, overlaps it by two sectors or more and reaches past it. */
  predicate RearOverlap(w: Write, s: nat, n: nat) {
    w.valid && w.sector < s && s < w.sector + w.length - 1 && w.sector + w.length < s + n
  }

  /** The last write extended by the new data; overlapped old sectors are superseded. */
  function Merged(t: Write, s: nat, x: seq<Value>): Write
    requires Sequential(t, s) || RearOverlap(t, s, |x|)
  {
    if Sequential(t, s) then Write(true, t.sector, t.length + |x|, t.span + Fresh(x))
    else Write(true, t.sector, s - t.sector + |x|, KeepFirst(t.span, s - t.sector) + Fresh(x))
  }

  /** Adds the new data at the end of the queue: into the last write, or as a new one. */
  function Attach(ws: seq<Write>, s: nat, x: seq<Value>): seq<Write> {
    if ws != [] && (Sequential(ws[|ws| - 1], s) || RearOverlap(ws[|ws| - 1], s, |x|)) then
      ws[..|ws| - 1] + [Merged(ws[|ws| - 1], s, x)]
    else
      ws + [Write(true, s, |x|, Fresh(x))]
  }

  function EnqueueWrite(st: State, s: nat, x: seq<Value>): State {
    st.(writeQueue := Attach(Elide(st.writeQueue, s, |x|), s, x))
  }

  /** The data a read takes from the write buffer: the copy starts `s - w.sector` frames into the span
      and takes the next `n` frames, whatever their status was before the flush. */
  function CopyOut(w: Write, s: nat, n: nat): (x: seq<Value>)
    requires Covers(w, s, n) && w.length <= |w.span|
    ensures |x| == n
  {
    Raw(w.span[s - w.sector..s - w.sector + n])
  }

  function EnqueueRead(c: Config, st: State, s: nat, n: nat): State
    requires Shape(c, st)
  {
    var k := LastOverlap(st.writeQueue, s, n);
    if k < 0 then st.(readQueue := st.readQueue + [Read(s, n, None)])
    else
      var w := st.writeQueue[k];
      var a := Flush(c, st, |st.readQueue| + k + 1);
      LiveBound(w.span);
      a.(readQueue := a.readQueue + [Read(s, n, if Covers(w, s, n) then Some(CopyOut(w, s, n)) else None)])
  }

  function SsdWrite(c: Config, st: State, s: nat, x: seq<Value>): (State, seq<Answer>)
    requires Shape(c, st)
  {
    var (a, out) := Deliver(st);
    var b := if WriteFree(c, a) < |x| then Flush(c, a, |a.readQueue| + |a.writeQueue|) else a;
    (EnqueueWrite(b, s, x), out)
  }

  function SsdRead(c: Config, st: State, s: nat, n: nat): (State, seq<Answer>)
    requires Shape(c, st)
  {
    var (a, out) := Deliver(st);
    if ReadFree(c, a) < n then
      SecureKeepsShape(c, a);
      var (b, more) := SecureRead(c, a);
      (EnqueueRead(c, b, s, n), out + more)
    else (EnqueueRead(c, a, s, n), out)
  }

  // ---------------------------------------------------------------------------------------------
  // Shape is kept

  lemma {:induction false} DequeueKeepsShape(c: Config, st: State)
    requires Shape(c, st)
    ensures Shape(c, DequeueIo(c, st))
  {
    if st.readQueue != [] {
      AnswerTotalSnoc(st.completed, Answered(st.readQueue[0], st.flash));
    } else if st.writeQueue != [] {
      var w := st.writeQueue[0];
      if !w.valid {
        NoneLive(w.span);
      }
    }
  }

  lemma {:induction false} AnswerTotalSnoc(xs: seq<Answer>, a: Answer)
    ensures AnswerTotal(xs + [a]) == AnswerTotal(xs) + a.length
  {
    if xs != [] {
      AnswerTotalSnoc(xs[1..], a);
      assert (xs + [a])[1..] == xs[1..] + [a];
    } else {
      assert (xs + [a])[1..] == [];
    }
  }

  lemma {:induction false} SecureKeepsShape(c: Config, st: State)
    requires Shape(c, st)
    ensures Shape(c, SecureRead(c, st).0)
  {
    var a := Deliver(st).0;
    assert Shape(c, a);
    var b := Flush(c, a, |a.readQueue|);
    assert Shape(c, Deliver(b).0);
  }
}
