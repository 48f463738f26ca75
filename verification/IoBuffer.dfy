/** The firmware I/O buffer: event queue, completed queue, write ring and read ring, driven by
    SSD_READ and SSD_WRITE, with the FTL's page loop below it. */
module IoBuffers {
  import opened Options
  import opened Disk
  import opened Frames
  import Spec = BufferSpec
  import opened BufferWrites
  import opened BufferTheorems
  import opened BufferTiming
  import opened WriteRings
  import opened ReadRings
  import opened EventQueues
  import opened BufferViews
  import opened BufferScans
  import opened PageMap

  class IoBuffer {
    const c: Spec.Config
    /** SECTORS_PER_PAGE */
    const pageSectors: nat
    const q: HostQueues
    const wb: WriteRing
    const rb: ReadRing
    /** What the FTL has stored, sector by sector, and the logical pages that have a mapping. */
    var flash: seq<Value>
    var mapped: set<nat>
    /** Whether the k-th call of GET_NEW_PAGE finds a page, and the number of calls made. */
    const newPage: nat -> bool
    var allocs: nat
    /** The abstract state this object represents. */
    ghost var m: Spec.State

    /** The parts are well formed and share nothing. */
    ghost predicate Wired()
      reads this, q, wb, wb.valid, wb.data, rb, rb.data
    {
      && wb.data != rb.data && q.Valid() && wb.Valid() && rb.Valid()
      && wb.size == c.writeFrames && rb.size == c.readFrames && pageSectors > 0 && (forall k :: newPage(k))
    }

    /** The state of the parts, as values. */
    ghost function Snap(): Snapshot
      requires q.Valid()
      reads this, q, wb, rb
    {
      Snapshot(wb.win, wb.handed, wb.limit, rb.content, rb.reserved, rb.sata, q.Pending(), q.Done(), q.nr, flash)
    }

    /** The parts represent the abstract state, except for the `extra` frames at the end of the ring. */
    ghost predicate Tied(extra: seq<Frame>)
      reads this, q, wb, wb.valid, wb.data, rb, rb.data
    {
      Wired() && Agrees(c, m, Snap(), extra)
    }

    ghost predicate Valid()
      reads this, q, wb, wb.valid, wb.data, rb, rb.data
    {
      Tied([]) && Spec.Shape(c, m)
    }

    constructor (c: Spec.Config, pageSectors: nat, newPage: nat -> bool, flash: seq<Value>, mapped: set<nat>,
                 q: HostQueues, wb: WriteRing, rb: ReadRing)
      requires pageSectors > 0 && |flash| == c.sectors && forall k :: newPage(k)
      requires q.Valid() && q.Pending() == [] && q.Done() == [] && q.nr == 0
      requires wb.Valid() && wb.size == c.writeFrames && wb.win == [] && wb.handed == 0
      requires rb.Valid() && rb.size == c.readFrames && rb.content == [] && rb.reserved == 0 && wb.data != rb.data
      ensures Valid() && this.c == c && m == Spec.InitState(c, flash)
      ensures this.q == q && this.wb == wb && this.rb == rb
    {
      hide HostQueues.Valid, Live, Events, Holds, Stored;
      this.c, this.pageSectors, this.newPage := c, pageSectors, newPage;
      this.flash, this.mapped, this.allocs := flash, mapped, 0;
      this.q, this.wb, this.rb := q, wb, rb;
      m := Spec.InitState(c, flash);
    }

    /** INIT_IO_BUFFER over a device that holds `flash`. */
    static method Init(c: Spec.Config, pageSectors: nat, newPage: nat -> bool, flash: seq<Value>, mapped: set<nat>)
      returns (b: IoBuffer)
      requires c.writeFrames > 0 && c.readFrames > 0 && pageSectors > 0 && |flash| == c.sectors && forall k :: newPage(k)
      ensures fresh(b) && fresh(b.q) && fresh(b.wb) && fresh(b.rb) && b.Valid() && b.c == c && b.m == Spec.InitState(c, flash)
      ensures fresh(b.wb.valid) && fresh(b.wb.data) && fresh(b.rb.data)
    {
      hide WriteRing.Valid, ReadRing.Valid, HostQueues.Valid, IoBuffer.Valid;
      var q := new HostQueues();
      var wb := new WriteRing(c.writeFrames);
      var rb := new ReadRing(c.readFrames);
      b := new IoBuffer(c, pageSectors, newPage, flash, mapped, q, wb, rb);
    }

    // -------------------------------------------------------------------------------------------
    // The FTL, as far as the buffer sees it

    /** One page of FTL_WRITE: hands the page's frames over, asks for a new page and, if there is one, stores
        the sectors. `rest` is what the FTL pointer has yet to pass of the span. */
    method FtlPage(lba: nat, n: nat, ghost rest: seq<Frame>, ghost tail: seq<Frame>) returns (ok: bool, ghost i: nat, ghost x: seq<Value>)
      requires wb.Valid() && wb.handed <= |wb.win| && wb.win[wb.handed..] == rest + tail && pageSectors > 0
      requires 0 < n <= |Live(rest)| && rest != [] && rest[|rest| - 1].status == 'V'
      requires lba + n <= |flash|
      modifies this`flash, this`mapped, this`allocs, wb`ftl, wb`win, wb`handed, wb.valid
      ensures wb.Valid() && |wb.win| == |old(wb.win)| && wb.handed == old(wb.handed) + i <= |wb.win|
      ensures 0 < i <= |rest| && wb.win[wb.handed..] == rest[i..] + tail
      ensures |x| == n && Live(rest) == x + Live(rest[i..]) && (n == |Live(rest)| <==> i == |rest|)
      ensures ok == newPage(old(allocs)) && allocs == old(allocs) + 1
      ensures flash == if ok then Put(old(flash), lba, x) else old(flash)
      ensures mapped == if ok then old(mapped) + {lba / pageSectors} else old(mapped)
    {
      hide WriteRing.Valid, Live, Put;
      i := FtlStep(rest, n);
      assert wb.win[wb.handed..wb.handed + i] == wb.win[wb.handed..][..i] == rest[..i];
      assert wb.win[wb.handed + i - 1] == wb.win[wb.handed..][i - 1];
      var taken := wb.IncreaseFtl(n, i);
      x := taken;
      ok := newPage(allocs);
      allocs := allocs + 1;
      if ok {
        flash := Put(flash, lba, taken);
        mapped := mapped + {lba / pageSectors};
      }
    }

    /** FTL_WRITE: page by page, takes the pending sectors at the FTL pointer and stores them, then frees
        every frame it has passed. `len` frames hold exactly the `length` sectors. It fails without a change when
        the sectors are not on the device, and half way, after `done` sectors, when there is no new page: the
        frames handed over until then are not freed. */
    method FtlWrite(sector: nat, length: nat, ghost len: nat) returns (ok: bool, ghost done: nat)
      requires wb.Valid() && wb.handed == 0 && pageSectors > 0
      requires 0 < len <= |wb.win| && |Live(wb.win[..len])| == length && wb.win[len - 1].status == 'V'
      modifies this`flash, this`mapped, this`allocs, wb`ftl, wb`limit, wb`empty, wb`win, wb`handed, wb.valid
      ensures wb.Valid() && done <= length && (ok <==> done == length)
      ensures if sector + length > |old(flash)| then done == 0 && mapped == old(mapped) && allocs == old(allocs)
              else Outcome(done, mapped, allocs) == Written(newPage, old(allocs), old(mapped), sector, length, pageSectors)
      ensures ok ==> wb.handed == 0 && wb.win == old(wb.win)[len..] && wb.limit == Wrap(wb.size, old(wb.limit) + len)
      ensures !ok ==> wb.limit == old(wb.limit) && |wb.win| == |old(wb.win)|
      ensures !ok ==> (wb.handed == 0 <==> sector + length > |old(flash)|)
      ensures flash == if done == 0 then old(flash) else Put(old(flash), sector, Live(old(wb.win)[..len])[..done])
    {
      hide WriteRing.Valid, Live, Put, Written, Pages, Sects, Wrap;
      LiveStrict(wb.win[..len], 0);
      LiveNone(wb.win[..len][..0]);
      if sector + length > |flash| {
        return false, 0;
      }
      ghost var w0, l0, all := wb.win, wb.limit, Live(wb.win[..len]);
      ghost var rest := w0[..len];
      ghost var o := Written(newPage, allocs, mapped, sector, length, pageSectors);
      assert all[..0] == [];
      PutSectors(flash, sector, []);
      done := 0;
      var lba, remain, leftSkip := sector, length, sector % pageSectors;
      while remain > 0
        invariant wb.Valid() && wb.limit == l0 && wb.handed + |rest| == len && len <= |wb.win| == |w0|
        invariant wb.win[wb.handed..] == rest + w0[len..] && (rest != [] ==> rest[|rest| - 1].status == 'V')
        invariant 0 <= remain && 0 <= done && done + remain == length == |all| && Live(rest) == all[done..] && (remain == 0 ==> rest == [])
        invariant (remain > 0 ==> leftSkip == lba % pageSectors) && lba == sector + done
        invariant |flash| == |old(flash)| && flash == Put(old(flash), sector, all[..done])
        invariant o == var p := Written(newPage, allocs, mapped, lba, remain, pageSectors); p.(done := done + p.done)
      {
        var writeSects := Sects(leftSkip, remain, pageSectors);
        Round(leftSkip, lba, remain, pageSectors);
        WrittenRound(newPage, allocs, mapped, leftSkip, lba, remain, pageSectors);
        ghost var i, x;
        ok, i, x := FtlPage(lba, writeSects, rest, w0[len..]);
        if !ok {
          if done == 0 { PutSectors(old(flash), sector, []); }
          return false, done;
        }
        PutGrows(old(flash), sector, all, done, x, Live(rest[i..]));
        rest, done := rest[i..], done + writeSects;
        lba := lba + writeSects;
        remain := remain - writeSects;
        leftSkip := 0;
      }
      WrittenNone(newPage, allocs, mapped, lba, pageSectors);
      wb.IncreaseLimit();
      ok := true;
    }

    /** FTL_WRITE of sectors on the device, while GET_NEW_PAGE finds pages. */
    method FtlStore(sector: nat, length: nat, ghost len: nat)
      requires wb.Valid() && wb.handed == 0 && pageSectors > 0
      requires 0 < len <= |wb.win| && |Live(wb.win[..len])| == length && wb.win[len - 1].status == 'V'
      requires sector + length <= |flash| && forall k :: newPage(k)
      modifies this`flash, this`mapped, this`allocs, wb`ftl, wb`limit, wb`empty, wb`win, wb`handed, wb.valid
      ensures wb.Valid() && wb.handed == 0 && wb.win == old(wb.win)[len..]
      ensures wb.limit == Wrap(wb.size, old(wb.limit) + len)
      ensures flash == Put(old(flash), sector, Live(old(wb.win)[..len]))
    {
      hide WriteRing.Valid, Live, Put, Written, Wrap;
      ghost var all := Live(wb.win[..len]);
      WrittenAll(newPage, allocs, mapped, sector, length, pageSectors);
      PutSectors(flash, sector, []);
      var _, _ := FtlWrite(sector, length, len);
      assert all[..length] == all;
    }

    /** FTL_READ: the sectors arrive at the FTL pointer of the read buffer. It fails without a change when they
        are not on the device, and after the pointers have moved when a page of theirs has no mapping. */
    method FtlRead(sector: nat, length: nat) returns (ok: bool)
      requires rb.Valid() && |rb.content| + length <= rb.size && pageSectors > 0
      modifies rb`ftl, rb`limit, rb`content, rb`reserved, rb.data
      ensures rb.Valid()
      ensures ok <==> sector + length <= |flash| && AllIn(Pages(sector, length, pageSectors), mapped)
      ensures rb.content == old(rb.content) + (if sector + length <= |flash| then flash[sector..sector + length] else [])
      ensures rb.reserved == old(rb.reserved) - (if sector + length <= |flash| then length else 0)
    {
      hide ReadRing.Valid, Pages, AllIn;
      if sector + length > |flash| {
        return false;
      }
      rb.IncreaseFtl(flash[sector..sector + length]);
      ok := AllMapped(sector, length);
      rb.IncreaseLimit();
    }

    /** The first loop of FTL_READ. */
    method AllMapped(sector: nat, length: nat) returns (ok: bool)
      requires pageSectors > 0
      ensures ok <==> AllIn(Pages(sector, length, pageSectors), mapped)
    {
      hide Pages, AllIn, Sects;
      var lba, remain, leftSkip := sector, length, sector % pageSectors;
      while remain > 0
        invariant 0 <= lba && 0 <= remain && (remain > 0 ==> leftSkip == lba % pageSectors)
        invariant AllIn(Pages(sector, length, pageSectors), mapped) <==> AllIn(Pages(lba, remain, pageSectors), mapped)
      {
        var readSects := Sects(leftSkip, remain, pageSectors);
        Round(leftSkip, lba, remain, pageSectors);
        AllInCons(lba / pageSectors, Pages(lba + readSects, remain - readSects, pageSectors), mapped);
        if lba / pageSectors !in mapped {
          return false;
        }
        lba := lba + readSects;
        remain := remain - readSects;
        leftSkip := 0;
      }
      NoPages(lba, pageSectors, mapped);
      ok := true;
    }

    // -------------------------------------------------------------------------------------------
    // Dequeueing

    /** DEQUEUE_IO for a read: it is answered, if it was not on arrival, and moves to the completed queue. */
    method DequeueRead()
      requires Valid() && m.readQueue != []
      modifies this`m, q, rb, rb.data
      ensures Valid() && m == Spec.DequeueIo(c, old(m))
    {
      hide WriteRing.Valid, ReadRing.Valid, HostQueues.Valid, Spec.Shape, Spec.DequeueIo, Agrees, Events;
      ghost var n := Snap();
      DequeueReadAgrees(c, m, n);
      rb.FtlAt();
      var v := q.Head();
      var at := rb.ftl;
      assert n.content + [] == n.content;
      if v.buf.None? {
        var _ := FtlRead(v.sector, v.length);
      }
      q.CompleteRead(at);
      m := Spec.DequeueIo(c, m);
    }

    /** DEQUEUE_IO for a write: a valid one goes to flash, an invalid one is dropped. */
    method DequeueWrite()
      requires Valid() && m.readQueue == [] && m.writeQueue != []
      modifies this`m, this`flash, this`mapped, this`allocs, q, wb`ftl, wb`limit, wb`empty, wb`win, wb`handed, wb.valid
      ensures Valid() && m == Spec.DequeueIo(c, old(m))
    {
      hide WriteRing.Valid, ReadRing.Valid, HostQueues.Valid, Spec.Shape, Spec.DequeueIo, Agrees, Events, Live, Put;
      ghost var len := |m.leftover| + |m.writeQueue[0].span|;
      DequeueWriteAgrees(c, m, Snap());
      var v := q.DropWrite();
      if v.valid {
        FtlStore(v.sector, v.length, len);
      }
      m := Spec.DequeueIo(c, m);
    }

    /** DEQUEUE_IO */
    method DequeueIo()
      requires Valid()
      modifies this`m, this`flash, this`mapped, this`allocs, q, wb`ftl, wb`limit, wb`empty, wb`win, wb`handed, wb.valid, rb, rb.data
      ensures Valid() && m == Spec.DequeueIo(c, old(m))
    {
      hide WriteRing.Valid, ReadRing.Valid, Spec.Shape, WriteViews, DoneViews, Events, Live, Put;
      assert q.e.entryNb == |m.readQueue| + |m.writeQueue|;
      if q.e.entryNb == 0 || q.e.head == NULL {
        return;
      }
      var v := q.Head();
      if v.ioType == READ {
        DequeueRead();
      } else {
        DequeueWrite();
      }
    }

    /** FLUSH_EVENT_QUEUE_UNTIL: dequeues the entries up to and including `p`, the k-th pending one. */
    method FlushUntil(p: Ptr, ghost k: nat)
      requires Valid() && (p == NULL || (k < |q.eIds| && p == q.eIds[k]))
      modifies this`m, this`flash, this`mapped, this`allocs, q, wb`ftl, wb`limit, wb`empty, wb`win, wb`handed, wb.valid, rb, rb.data
      ensures Valid() && m == if p == NULL then old(m) else Spec.Flush(c, old(m), k + 1)
    {
      hide WriteRing.Valid, ReadRing.Valid, HostQueues.Valid, Spec.Shape, Spec.DequeueIo, Spec.Flush, Agrees, Events, Live;
      q.Heads();
      if p == NULL || q.e.head == NULL {
        return;
      }
      var count := q.CountThrough(p, k);
      ghost var st := m;
      FlushNone(c, st);
      var i := 0;
      while i < count
        invariant 0 <= i <= count && Valid() && m == Spec.Flush(c, st, i)
      {
        FlushStep(c, st, i);
        DequeueIo();
        i := i + 1;
      }
    }

    /** One round of DEQUEUE_COMPLETED_READ: `ok` is false if the SATA pointer is not at the entry's data. */
    method DeliverFirst() returns (a: Spec.Answer, ok: bool)
      requires Valid() && m.completed != []
      modifies this`m, q, rb
      ensures Valid() && m == DeliverOne(old(m)) && a == old(m).completed[0] && ok
    {
      hide WriteRing.Valid, ReadRing.Valid, HostQueues.Valid, Spec.Shape, Agrees, Events;
      DeliverAgrees(c, m, Snap());
      var v := q.DropDone();
      ok := v.buf == Some(rb.sata);
      var x := rb.IncreaseSata(v.length);
      a := Spec.Answer(v.sector, v.length, x);
      m := DeliverOne(m);
    }

    /** DEQUEUE_COMPLETED_READ: hands every completed read to the host; `ok` says that no entry took the
        error branch. */
    method Deliver() returns (out: seq<Spec.Answer>, ok: bool)
      requires Valid()
      modifies this`m, q, rb
      ensures Valid() && m == Spec.Deliver(old(m)).0 && out == Spec.Deliver(old(m)).1 && ok
    {
      hide WriteRing.Valid, ReadRing.Valid, HostQueues.Valid, Spec.Shape, Agrees, Events;
      out, ok := [], true;
      ghost var i := 0;
      DoneHead();
      while q.c.head != NULL
        invariant 0 <= i <= |old(m).completed| && Valid() && ok
        invariant m == old(m).(completed := old(m).completed[i..]) && out == old(m).completed[..i]
        invariant q.c.head == NULL <==> m.completed == []
        decreases |old(m).completed| - i
      {
        var a, good := DeliverFirst();
        out, ok := out + [a], ok && good;
        i := i + 1;
        DoneHead();
      }
    }

    // -------------------------------------------------------------------------------------------
    // Enqueueing a write

    /** Invalidates one queued write and its frames. */
    method DropEntry(t: Ptr, v: Event, ghost i: nat, ghost extra: seq<Frame>)
      requires Tied(extra) && i < |m.writeQueue| && Spec.WriteOk(m.writeQueue[i], c.sectors) && m.writeQueue[i].valid
      requires q.nr + i < |q.eIds| && t == q.eIds[q.nr + i] && t in q.heap && v == q.heap[t].event
      modifies this`m, q`heap, wb`win, wb.valid
      ensures Tied(extra)
      ensures var w := old(m).writeQueue[i];
              m == old(m).(writeQueue := old(m).writeQueue[i := w.(valid := false, span := Mark(w.span, 'I'))])
    {
      hide WriteRing.Valid, ReadRing.Valid, HostQueues.Valid, Agrees, Events, Live, Spec.SpanTotal, Mark;
      ghost var w := m.writeQueue[i];
      ghost var at := |m.leftover| + Spec.SpanTotal(m.writeQueue[..i]);
      ghost var n0, dropped := Snap(), w.(valid := false, span := Mark(w.span, 'I'));
      WriteEntry(c, m, n0, extra, i);
      q.EntryAt(t, q.nr + i);
      UpdateAgrees(c, m, n0, extra, i, dropped);
      ghost var n1 := n0.(win := n0.win[..at] + dropped.span + n0.win[at + |w.span|..],
                          pending := n0.pending[n0.nr + i := WriteView(dropped, v.buf.value)]);
      q.Update(t, v.(valid := false), q.nr + i);
      wb.Supersede(v.buf.value, v.length, at, |w.span|);
      assert Snap() == n1;
      m := m.(writeQueue := m.writeQueue[i := dropped]);
    }

    /** One entry of the overwrite scan: a valid write inside [s, s+n) is invalidated, and so are its frames. */
    method ElideEntry(t: Ptr, s: nat, n: nat, ghost i: nat, ghost extra: seq<Frame>)
      requires Tied(extra) && Spec.WritesOk(m.writeQueue, c.sectors)
      requires i < |m.writeQueue| && q.nr + i < |q.eIds| && t == q.eIds[q.nr + i]
      modifies this`m, q`heap, wb`win, wb.valid
      ensures Tied(extra) && m == old(m).(writeQueue := old(m).writeQueue[i := Spec.ElideOne(old(m).writeQueue[i], s, n)])
    {
      hide WriteRing.Valid, ReadRing.Valid, HostQueues.Valid, Agrees, Events, Live, Spec.SpanTotal, Spec.WritesOk,
           Spec.WriteOk;
      ghost var w := m.writeQueue[i];
      WriteEntry(c, m, Snap(), extra, i);
      OneWriteOk(m.writeQueue, i, c.sectors);
      q.EntryAt(t, q.nr + i);
      var v := q.heap[t].event;
      if v.valid && CheckOverwrite(v, s, n) {
        DropEntry(t, v, i, extra);
      } else {
        assert m.writeQueue[i := w] == m.writeQueue;
      }
    }

    /** The overwrite scan of ENQUEUE_WRITE over all queued writes. */
    method ElideWrites(s: nat, n: nat, ghost extra: seq<Frame>)
      requires Tied(extra) && Spec.WritesOk(m.writeQueue, c.sectors)
      modifies this`m, q`heap, wb`win, wb.valid
      ensures Tied(extra) && m == old(m).(writeQueue := Spec.Elide(old(m).writeQueue, s, n))
    {
      hide WriteRing.Valid, ReadRing.Valid, HostQueues.Valid, Agrees, Events, Spec.ElideOne, Spec.WritesOk, At, Elided;
      ghost var ws := m.writeQueue;
      var t := q.FirstWrite();
      ghost var i := 0;
      NoWrites(c, m, Snap(), extra);
      ElidedEnds(ws, s, n);
      while t != NULL
        invariant Tied(extra) && 0 <= i <= |ws| && t == At(q.eIds, q.nr + i) && |q.eIds| == q.nr + |ws|
        invariant m == old(m).(writeQueue := Elided(ws, s, n, i)) && Spec.WritesOk(m.writeQueue, c.sectors)
        decreases |ws| - i
      {
        q.AtNull(q.nr + i);
        ElidedOk(ws, s, n, i, c.sectors);
        ElideEntry(t, s, n, i, extra);
        q.EntryAt(t, q.nr + i);
        t := q.heap[t].next;
        i := i + 1;
      }
      q.AtNull(q.nr + i);
    }

    /** The last queued write: its entry is the tail of the queue. */
    lemma {:induction false} TailWrite(extra: seq<Frame>)
      requires Tied(extra)
      ensures |q.eIds| == |m.readQueue| + |m.writeQueue| && q.nr == |m.readQueue|
      ensures m.writeQueue == [] ==> q.e.tail == NULL || (q.e.tail in q.heap && q.heap[q.e.tail].event.ioType == READ)
      ensures m.writeQueue != [] ==>
                var k := |m.writeQueue| - 1;
                && q.e.tail == q.eIds[q.nr + k] && q.e.tail != NULL && q.e.tail in q.heap
                && q.heap[q.e.tail].event ==
                   WriteView(m.writeQueue[k], Wrap(c.writeFrames, wb.limit + |m.leftover| + Spec.SpanTotal(m.writeQueue[..k])))
    {
      hide WriteRing.Valid, ReadRing.Valid, HostQueues.Valid, Agrees, Events, Spec.SpanTotal;
      NoWrites(c, m, Snap(), extra);
      q.Heads();
      if m.writeQueue != [] {
        WriteEntry(c, m, Snap(), extra, |m.writeQueue| - 1);
        q.EntryAt(q.e.tail, |q.eIds| - 1);
      } else if q.eIds != [] {
        q.EntryAt(q.e.tail, |q.eIds| - 1);
        q.TypeAt(|q.eIds| - 1);
      }
    }

    /** Supersedes the last `invalidLen` sectors of the last write. */
    method TrimRear(invalidLen: nat, ghost extra: seq<Frame>)
      requires Tied(extra) && Spec.WritesOk(m.writeQueue, c.sectors) && m.writeQueue != []
      requires m.writeQueue[|m.writeQueue| - 1].valid && 0 < invalidLen <= m.writeQueue[|m.writeQueue| - 1].length
      modifies this`m, wb`win, wb.valid
      ensures Tied(extra) && m == old(m).(writeQueue := Trimmed(old(m).writeQueue, invalidLen))
    {
      hide WriteRing.Valid, ReadRing.Valid, HostQueues.Valid, Agrees, Events, Live, Spec.SpanTotal, Spec.WritesOk, KeepFirst;
      ghost var k := |m.writeQueue| - 1;
      ghost var w := m.writeQueue[k];
      ghost var n := Snap();
      TailWrite(extra);
      WriteEntry(c, m, n, extra, k);
      OneWriteOk(m.writeQueue, k, c.sectors);
      var v := q.heap[q.e.tail].event;
      UpdateAgrees(c, m, n, extra, k, Trimmed(m.writeQueue, invalidLen)[k]);
      assert n.pending[n.nr + k := n.pending[n.nr + k]] == n.pending;
      wb.SupersedeRear(v.buf.value, v.length, invalidLen, |m.leftover| + Spec.SpanTotal(m.writeQueue[..k]), |w.span|);
      m := m.(writeQueue := Trimmed(m.writeQueue, invalidLen));
    }

    /** The new frames join the last write, which becomes `t`. */
    method ExtendTail(length: nat, ghost t: Spec.Write, ghost extra: seq<Frame>)
      requires Tied(extra) && m.writeQueue != [] && t.length == length
      requires var w := m.writeQueue[|m.writeQueue| - 1];
               t.valid == w.valid && t.sector == w.sector && t.span == w.span + extra
      modifies this`m, q`heap
      ensures Tied([]) && m == old(m).(writeQueue := old(m).writeQueue[..|old(m).writeQueue| - 1] + [t])
    {
      hide WriteRing.Valid, ReadRing.Valid, HostQueues.Valid, Agrees, Events, Spec.SpanTotal;
      ghost var k := |m.writeQueue| - 1;
      TailWrite(extra);
      WriteEntry(c, m, Snap(), extra, k);
      ExtendAgrees(c, m, Snap(), extra, t);
      q.EntryAt(q.e.tail, q.nr + k);
      q.Update(q.e.tail, q.heap[q.e.tail].event.(length := length), q.nr + k);
      m := m.(writeQueue := m.writeQueue[..k] + [t]);
    }

    /** The second half of ENQUEUE_WRITE: the new frames, which start at `buf`, join the last write or
        become a new one. */
    method AttachWrite(s: nat, n: nat, buf: nat, ghost x: seq<Value>)
      requires Tied(Fresh(x)) && Spec.WritesOk(m.writeQueue, c.sectors) && n == |x|
      requires buf == Wrap(c.writeFrames, wb.limit + |m.leftover| + Spec.SpanTotal(m.writeQueue))
      modifies this`m, q, wb`win, wb.valid
      ensures Tied([]) && m == old(m).(writeQueue := Spec.Attach(old(m).writeQueue, s, x))
    {
      hide WriteRing.Valid, ReadRing.Valid, HostQueues.Valid, Agrees, Events, Spec.SpanTotal, KeepFirst;
      TailWrite(Fresh(x));
      ghost var k := |m.writeQueue| - 1;
      var t := q.e.tail;
      if t != NULL && CheckSequentiality(q.heap[t].event, s) {
        ExtendTail(q.heap[t].event.length + n, Spec.Merged(m.writeQueue[k], s, x), Fresh(x));
      } else if t != NULL && CheckDependencyForWrite(q.heap[t].event, s, n) {
        ghost var u := Spec.Merged(m.writeQueue[k], s, x);
        ghost var ws := m.writeQueue;
        var v := q.heap[t].event;
        var invalidLen := v.sector + v.length - s;
        TrimRear(invalidLen, Fresh(x));
        ExtendTail(v.length + (n - invalidLen), u, Fresh(x));
        assert m.writeQueue == ws[..k] + [u];
      } else {
        ghost var w := Spec.Write(true, s, n, Fresh(x));
        AppendAgrees(c, m, Snap(), w);
        q.AddWrite(Event(WRITE, true, s, n, Some(buf)));
        m := m.(writeQueue := m.writeQueue + [w]);
      }
    }

    /** ENQUEUE_WRITE */
    method EnqueueWrite(s: nat, x: seq<Value>)
      requires Valid() && 1 <= |x| <= Spec.WriteFree(c, m) && s + |x| <= c.sectors
      modifies this`m, q, wb`sata, wb`empty, wb`win, wb.valid, wb.data
      ensures Valid() && m == Spec.EnqueueWrite(old(m), s, x)
    {
      hide ReadRing.Valid, HostQueues.Valid, Holds, Agrees, Events, Spec.SpanTotal, Spec.WritesOk, Spec.Attach,
           Spec.ElideOne;
      ExtraAgrees(c, m, Snap(), Fresh(x));
      EnqueueWriteEffect(c, m, s, x);
      ElideTotal(m.writeQueue, s, |x|);
      ElideOk(m.writeQueue, s, |x|, c.sectors);
      var buf := wb.sata;
      wb.IncreaseSata(x);
      ElideWrites(s, |x|, Fresh(x));
      AttachWrite(s, |x|, buf, x);
    }

    // -------------------------------------------------------------------------------------------
    // Enqueueing a read

    /** CHECK_IO_DEPENDENCY_FOR_READ: the last valid queued write that overlaps [s, s+n), or null. */
    method CheckDependencyForRead(s: nat, n: nat) returns (p: Ptr, ghost k: int)
      requires Valid()
      ensures k == Spec.LastOverlap(m.writeQueue, s, n) && |q.eIds| == q.nr + |m.writeQueue| && q.nr == |m.readQueue|
      ensures (p == NULL <==> k < 0) && (k >= 0 ==> p == q.eIds[q.nr + k])
    {
      hide WriteRing.Valid, ReadRing.Valid, HostQueues.Valid, Agrees, Events, Spec.Shape, Spec.SpanTotal, At,
           Spec.LastOverlap;
      NoWrites(c, m, Snap(), []);
      LastOverlapNone(m.writeQueue, s, n);
      p, k := NULL, -1;
      var t := q.FirstWrite();
      ghost var i := 0;
      while t != NULL
        invariant 0 <= i <= |m.writeQueue| && t == At(q.eIds, q.nr + i)
        invariant k == Spec.LastOverlap(m.writeQueue[..i], s, n)
        invariant (p == NULL <==> k < 0) && (k >= 0 ==> p == q.eIds[q.nr + k])
        decreases |m.writeQueue| - i
      {
        q.AtNull(q.nr + i);
        WriteEntry(c, m, Snap(), [], i);
        q.EntryAt(t, q.nr + i);
        LastOverlapSnoc(m.writeQueue, s, n, i);
        var v := q.heap[t].event;
        if v.valid {
          var last, tempLast := s + n - 1, v.sector + v.length - 1;
          if v.sector <= last && s <= tempLast {
            p, k := t, i;
          }
        }
        t := q.heap[t].next;
        i := i + 1;
      }
      q.AtNull(q.nr + i);
      assert m.writeQueue[..i] == m.writeQueue;
    }

    /** COPY_DATA_TO_READ_BUFFER: passes `off` frames from `buf` on and copies the next `n`; superseded
        frames count for neither. `fs` are the frames from `buf` on, as they are now. */
    method CopyToReadBuffer(buf: nat, off: nat, n: nat, ghost fs: seq<Frame>)
      requires wb.Valid() && rb.Valid() && FramesFrom(wb.valid[..], wb.data[..], buf, fs)
      requires off + n <= |Unsuperseded(fs)| && |rb.content| + n <= rb.size && wb.data != rb.data
      modifies rb`ftl, rb`limit, rb`content, rb`reserved, rb.data
      ensures rb.Valid() && rb.content == old(rb.content) + Unsuperseded(fs)[off..off + n]
      ensures rb.reserved == old(rb.reserved) - n
    {
      hide Holds, ReadRing.Valid, Unsuperseded;
      var p, count := buf, 0;
      ghost var i := 0;
      UnsupersededBounds(fs);
      while count != off
        invariant 0 <= i <= |fs| && count == |Unsuperseded(fs[..i])| <= off && p == Wrap(wb.size, buf + i)
        invariant rb.Valid() && rb.content == old(rb.content) && rb.reserved == old(rb.reserved)
        decreases |fs| - i
      {
        UnsupersededStep(fs, i);
        if wb.valid[p] != 'I' { count := count + 1; }
        p := wb.Next(p);
        i := i + 1;
      }
      count := 0;
      while count != n
        invariant 0 <= i <= |fs| && off + count == |Unsuperseded(fs[..i])| && count <= n && p == Wrap(wb.size, buf + i)
        invariant rb.Valid() && rb.content == old(rb.content) + Unsuperseded(fs[..i])[off..]
        invariant rb.reserved == old(rb.reserved) - count
        decreases |fs| - i
      {
        UnsupersededStep(fs, i);
        if wb.valid[p] == 'I' {
          p := wb.Next(p);
          i := i + 1;
          continue;
        }
        rb.PushSector(wb.data[p]);
        p := wb.Next(p);
        count := count + 1;
        i := i + 1;
      }
      UnsupersededPrefix(fs, i);
      rb.IncreaseLimit();
    }

    /** The entry of the k-th write, as the caller copies it before the flush, and where its frames are. */
    method ServingEntry(p: Ptr, ghost k: nat) returns (t: Event)
      requires Valid() && k < |m.writeQueue| && m.writeQueue[k].valid
      requires q.nr == |m.readQueue| && q.nr + k < |q.eIds| && p == q.eIds[q.nr + k]
      ensures var at := |m.leftover| + Spec.SpanTotal(m.writeQueue[..k]);
              var w := m.writeQueue[k];
              && t.buf == Some(Wrap(wb.size, wb.limit + at)) && t == WriteView(w, t.buf.value) && w.span != []
              && ValuesFrom(wb.data[..], t.buf.value, Raw(w.span))
              && |wb.win| == at + |w.span| + Spec.SpanTotal(m.writeQueue[k + 1..])
    {
      hide ReadRing.Valid, HostQueues.Valid, Holds, Agrees, Events, Spec.Shape, Spec.SpanTotal, Live, ValuesFrom, Wrap;
      ghost var at, span := |m.leftover| + Spec.SpanTotal(m.writeQueue[..k]), m.writeQueue[k].span;
      WriteEntry(c, m, Snap(), [], k);
      WindowLength(c, m, Snap(), k);
      ShapeWrite(c, m, k);
      q.EntryAt(p, q.nr + k);
      t := q.heap[p].event;
      SpanValues(wb.limit, wb.win, wb.valid[..], wb.data[..], at, |span|);
    }

    /** Flushes the queue up to the k-th write. Its frames are then free and still hold its data. */
    method FlushServing(p: Ptr, ghost k: nat) returns (t: Event)
      requires Valid() && k < |m.writeQueue| && m.writeQueue[k].valid
      requires q.nr == |m.readQueue| && q.nr + k < |q.eIds| && p == q.eIds[q.nr + k]
      modifies this`m, this`flash, this`mapped, this`allocs, q, wb`ftl, wb`limit, wb`empty, wb`win, wb`handed, wb.valid, rb, rb.data
      ensures Valid() && m == Spec.Flush(c, old(m), |old(m).readQueue| + k + 1)
      ensures t.buf.Some? && t == WriteView(old(m).writeQueue[k], t.buf.value)
      ensures FramesFrom(wb.valid[..], wb.data[..], t.buf.value, Freed(old(m).writeQueue[k].span))
    {
      hide ReadRing.Valid, HostQueues.Valid, Holds, Agrees, Events, Spec.Shape, Spec.SpanTotal, Spec.Flush, Live,
           Spec.Replay, ValuesFrom, FramesFrom, Wrap, Freed;
      ghost var st, limit, at := m, wb.limit, |m.leftover| + Spec.SpanTotal(m.writeQueue[..k]);
      assert p != NULL by { q.EntryAt(p, q.nr + k); }
      t := ServingEntry(p, k);
      assert |wb.win| <= wb.size;
      FlushUntil(p, |st.readQueue| + k);
      assert m == Spec.Flush(c, st, |st.readQueue| + k + 1);
      FlushTakesPrefix(c, st, k + 1);
      ExtraAgrees(c, m, Snap(), []);
      assert |wb.win| == Spec.SpanTotal(st.writeQueue[k + 1..]);
      FreedFrames(limit, at, st.writeQueue[k].span, wb.limit, wb.win, wb.valid[..], wb.data[..]);
    }

    /** Queues a new read that has no data yet. */
    method QueueRead(s: nat, n: nat)
      requires Tied([]) && Spec.AnswersOk(m.completed)
      modifies this`m, q, rb`empty, rb`reserved
      ensures Tied([]) && m == old(m).(readQueue := old(m).readQueue + [Spec.Read(s, n, None)])
    {
      hide WriteRing.Valid, ReadRing.Valid, HostQueues.Valid, Agrees, Events, Spec.AnswersOk;
      AddReadAgrees(c, m, Snap(), Spec.Read(s, n, None));
      assert rb.content + [] == rb.content;
      q.AddRead(Event(READ, true, s, n, None));
      rb.Reserve(n);
      m := m.(readQueue := m.readQueue + [Spec.Read(s, n, None)]);
    }

    /** Queues a new read that is answered from the write buffer: its data is copied first. */
    method QueueCopiedRead(s: nat, n: nat, t: Event, ghost w: Spec.Write)
      requires Tied([]) && Spec.AnswersOk(m.completed) && m.readQueue == []
      requires Spec.AnswerTotal(m.completed) + n <= c.readFrames
      requires t.buf.Some? && t == WriteView(w, t.buf.value) && Spec.Covers(w, s, n) && w.length <= |w.span|
      requires FramesFrom(wb.valid[..], wb.data[..], t.buf.value, Freed(w.span))
      modifies this`m, q, rb, rb.data
      ensures Tied([])
      ensures m == old(m).(readQueue := old(m).readQueue + [Spec.Read(s, n, Some(Spec.CopyOut(w, s, n)))])
    {
      hide WriteRing.Valid, ReadRing.Valid, HostQueues.Valid, Agrees, Events, Spec.AnswersOk, FramesFrom,
           Unsuperseded, Spec.AnswerTotal, Spec.CopyOut;
      ghost var x := Spec.CopyOut(w, s, n);
      AddReadAgrees(c, m, Snap(), Spec.Read(s, n, Some(x)));
      FreedCopy(w, s, n);
      rb.FtlAt();
      var buf := rb.ftl;
      CopyToReadBuffer(t.buf.value, s - t.sector, n, Freed(w.span));
      q.AddRead(Event(READ, true, s, n, Some(buf)));
      rb.Reserve(n);
      m := m.(readQueue := m.readQueue + [Spec.Read(s, n, Some(x))]);
    }

    /** Queues a read that overlaps the k-th queued write, after flushing up to that write. */
    method QueueBehind(s: nat, n: nat, p: Ptr, ghost k: nat)
      requires Valid() && 1 <= n <= Spec.ReadFree(c, m) && s + n <= c.sectors
      requires k == Spec.LastOverlap(m.writeQueue, s, n)
      requires q.nr == |m.readQueue| && q.nr + k < |q.eIds| && p == q.eIds[q.nr + k]
      modifies this`m, this`flash, this`mapped, this`allocs, q, wb`ftl, wb`limit, wb`empty, wb`win, wb`handed, wb.valid, rb, rb.data
      ensures Tied([]) && m == Spec.EnqueueRead(c, old(m), s, n)
    {
      hide WriteRing.Valid, ReadRing.Valid, HostQueues.Valid, Agrees, Events, Spec.Shape, Spec.Flush, Spec.CopyOut,
           Spec.EnqueueRead, FramesFrom, Spec.ReadFree, Spec.LastOverlap;
      ghost var st := m;
      EnqueueReadCases(c, st, s, n);
      var t := FlushServing(p, k);
      if t.sector <= s && s + n <= t.sector + t.length {
        QueueCopiedRead(s, n, t, st.writeQueue[k]);
      } else {
        QueueRead(s, n);
      }
    }

    /** ENQUEUE_READ */
    method EnqueueRead(s: nat, n: nat)
      requires Valid() && 1 <= n <= Spec.ReadFree(c, m) && s + n <= c.sectors
      modifies this`m, this`flash, this`mapped, this`allocs, q, wb`ftl, wb`limit, wb`empty, wb`win, wb`handed, wb.valid, rb, rb.data
      ensures Valid() && m == Spec.EnqueueRead(c, old(m), s, n)
    {
      hide WriteRing.Valid, ReadRing.Valid, HostQueues.Valid, Agrees, Events, Spec.Shape, Spec.Flush, Spec.CopyOut,
           Spec.EnqueueRead, Spec.ReadFree;
      EnqueueReadEffect(c, m, s, n);
      EnqueueReadCases(c, m, s, n);
      q.Heads();
      NoWrites(c, m, Snap(), []);
      if q.e.entryNb == 0 {
        QueueRead(s, n);
      } else {
        var p, k := CheckDependencyForRead(s, n);
        if p == NULL {
          QueueRead(s, n);
        } else {
          QueueBehind(s, n, p, k);
        }
      }
    }

    // -------------------------------------------------------------------------------------------
    // The host interface

    /** SECURE_WRITE_BUFFER: flushes the whole queue. */
    method SecureWrite()
      requires Valid()
      modifies this`m, this`flash, this`mapped, this`allocs, q, wb`ftl, wb`limit, wb`empty, wb`win, wb`handed, wb.valid, rb, rb.data
      ensures Valid() && m == Spec.Flush(c, old(m), |old(m).readQueue| + |old(m).writeQueue|)
    {
      hide WriteRing.Valid, ReadRing.Valid, HostQueues.Valid, Agrees, Events, Spec.Shape, Spec.Flush;
      NoWrites(c, m, Snap(), []);
      q.Heads();
      FlushNone(c, m);
      FlushUntil(q.e.tail, if q.eIds == [] then 0 else |q.eIds| - 1);
    }

    /** SECURE_READ_BUFFER: completes and delivers every read. */
    method SecureRead() returns (out: seq<Spec.Answer>, ok: bool)
      requires Valid()
      modifies this`m, this`flash, this`mapped, this`allocs, q, wb`ftl, wb`limit, wb`empty, wb`win, wb`handed, wb.valid, rb, rb.data
      ensures Valid() && m == Spec.SecureRead(c, old(m)).0 && out == Spec.SecureRead(c, old(m)).1 && ok
    {
      hide WriteRing.Valid, ReadRing.Valid, HostQueues.Valid, Agrees, Events, Spec.Shape, Spec.Flush;
      NoWrites(c, m, Snap(), []);
      DoneCount();
      out, ok := [], true;
      if q.c.entryNb != 0 {
        out, ok := Deliver();
      }
      NoWrites(c, m, Snap(), []);
      q.LastReadIs();
      FlushNone(c, m);
      if q.lastRead != NULL {
        FlushUntil(q.lastRead, q.nr - 1);
        var more, good := Deliver();
        out, ok := out + more, ok && good;
      }
    }

    /** SSD_WRITE, with its call of ENQUEUE_IO: `out` are the reads handed to the host. */
    method SsdWrite(s: nat, x: seq<Value>) returns (out: seq<Spec.Answer>, ok: bool)
      requires Valid() && Spec.RequestOk(c, Spec.HostWrite(s, x))
      modifies this`m, this`flash, this`mapped, this`allocs, q, wb, wb.valid, wb.data, rb, rb.data
      ensures Valid() && ok && m == Spec.SsdWrite(c, old(m), s, x).0 && out == Spec.SsdWrite(c, old(m), s, x).1
      ensures out == old(m).completed
    {
      hide WriteRing.Valid, ReadRing.Valid, HostQueues.Valid, Agrees, Events, Spec.Shape, Spec.Flush,
           Spec.EnqueueWrite, Spec.WriteFree;
      out, ok := Deliver();
      WriteCounter();
      if wb.empty < |x| {
        FlushAllEmpties(c, m);
        SecureWrite();
      }
      EnqueueWrite(s, x);
    }

    /** SSD_READ, with its call of ENQUEUE_IO. */
    method SsdRead(s: nat, n: nat) returns (out: seq<Spec.Answer>, ok: bool)
      requires Valid() && Spec.RequestOk(c, Spec.HostRead(s, n))
      modifies this`m, this`flash, this`mapped, this`allocs, q, wb, wb.valid, rb, rb.data
      ensures Valid() && ok && m == Spec.SsdRead(c, old(m), s, n).0 && out == Spec.SsdRead(c, old(m), s, n).1
      ensures old(m).completed <= out
    {
      hide WriteRing.Valid, ReadRing.Valid, HostQueues.Valid, Agrees, Events, Spec.Shape, Spec.Flush,
           Spec.EnqueueRead, Spec.ReadFree, Spec.SecureRead;
      out, ok := Deliver();
      ReadCounter();
      if rb.empty < n {
        SecureReadEffect(c, m);
        var more, good := SecureRead();
        out, ok := out + more, ok && good;
      }
      EnqueueRead(s, n);
    }

    /** TERM_IO_BUFFER: flushes the whole queue before the buffers go away. */
    method Terminate()
      requires Valid()
      modifies this`m, this`flash, this`mapped, this`allocs, q, wb`ftl, wb`limit, wb`empty, wb`win, wb`handed, wb.valid, rb, rb.data
      ensures Valid() && flash == Visible(c, old(m)) && m.readQueue == [] && m.writeQueue == []
    {
      hide WriteRing.Valid, ReadRing.Valid, HostQueues.Valid, Events, Spec.Shape, Spec.Flush, QueueViews, DoneViews,
           Visible, Outstanding;
      FlushAllEmpties(c, m);
      SecureWrite();
    }

    /** empty_write_buffer_frame is the number of free frames, by status and by count. */
    lemma {:induction false} WriteCounter()
      requires Valid()
      ensures wb.empty == Spec.WriteFree(c, m) == FreeCount(wb.valid[..])
    {
      hide ReadRing.Valid, HostQueues.Valid, Spec.Shape, Events, Holds, FreeCount;
      ExtraAgrees(c, m, Snap(), []);
      wb.EmptyIsFree();
    }

    /** empty_read_buffer_frame is what the queued and the undelivered reads leave. */
    lemma {:induction false} ReadCounter()
      requires Valid()
      ensures rb.empty == Spec.ReadFree(c, m)
    {
      hide WriteRing.Valid, HostQueues.Valid, Events, Stored, Spec.AnswerTotal, Datas;
      DatasLength(m.completed);
    }

    lemma {:induction false} DoneCount()
      requires Valid()
      ensures q.c.entryNb == |m.completed|
    {
      hide WriteRing.Valid, ReadRing.Valid, HostQueues.Valid, Spec.Shape;
      q.Heads();
    }

    lemma {:induction false} DoneHead()
      requires Valid()
      ensures q.c.head == NULL <==> m.completed == []
    {
      hide WriteRing.Valid, ReadRing.Valid, HostQueues.Valid, Spec.Shape;
      q.Heads();
    }
  }

  /** The queue after the overwrite scan passed `i` entries. */
  ghost function Elided(ws: seq<Spec.Write>, s: nat, n: nat, i: nat): (r: seq<Spec.Write>)
    requires i <= |ws|
    ensures |r| == |ws|
    ensures forall j :: 0 <= j < |ws| ==> r[j] == if j < i then Spec.ElideOne(ws[j], s, n) else ws[j]
  {
    Spec.Elide(ws[..i], s, n) + ws[i..]
  }

  lemma {:induction false} ElidedEnds(ws: seq<Spec.Write>, s: nat, n: nat)
    ensures Elided(ws, s, n, 0) == ws && Elided(ws, s, n, |ws|) == Spec.Elide(ws, s, n)
  {
  }

  lemma {:induction false} ElidedOk(ws: seq<Spec.Write>, s: nat, n: nat, i: nat, sectors: nat)
    requires i < |ws| && Spec.WritesOk(Elided(ws, s, n, i), sectors)
    ensures Elided(ws, s, n, i + 1) == Elided(ws, s, n, i)[i := Spec.ElideOne(Elided(ws, s, n, i)[i], s, n)]
    ensures Spec.WritesOk(Elided(ws, s, n, i + 1), sectors)
  {
    hide Spec.ElideOne, Spec.WriteOk;
    var a, b := Elided(ws, s, n, i), Elided(ws, s, n, i + 1);
    ElideOneOk(a[i], s, n, sectors);
    assert b == a[i := Spec.ElideOne(a[i], s, n)];
  }

  /** The queue with the last `n` sectors of its last write superseded. */
  ghost function Trimmed(ws: seq<Spec.Write>, n: nat): seq<Spec.Write>
    requires ws != [] && n <= ws[|ws| - 1].length
  {
    var w := ws[|ws| - 1];
    ws[|ws| - 1 := w.(span := KeepFirst(w.span, w.length - n))]
  }

  lemma {:induction false} OneWriteOk(ws: seq<Spec.Write>, i: nat, sectors: nat)
    requires Spec.WritesOk(ws, sectors) && i < |ws|
    ensures Spec.WriteOk(ws[i], sectors)
  {
  }

  /** How many frames follow the k-th write's on the ring. */
  lemma {:induction false} WindowLength(c: Spec.Config, st: Spec.State, n: Snapshot, k: nat)
    requires Agrees(c, st, n, []) && k < |st.writeQueue|
    ensures |n.win| == |st.leftover| + Spec.SpanTotal(st.writeQueue[..k]) + |st.writeQueue[k].span| + Spec.SpanTotal(st.writeQueue[k + 1..])
  {
    hide Spec.SpanTotal;
    SpansAt(st.writeQueue, k);
  }

  /** What ENQUEUE_READ leaves, case by case. */
  lemma {:induction false} EnqueueReadCases(c: Spec.Config, st: Spec.State, s: nat, n: nat)
    requires Spec.Shape(c, st) && 1 <= n <= Spec.ReadFree(c, st) && s + n <= c.sectors
    ensures Spec.AnswersOk(st.completed)
    ensures var k := Spec.LastOverlap(st.writeQueue, s, n);
            if k < 0 then Spec.EnqueueRead(c, st, s, n) == st.(readQueue := st.readQueue + [Spec.Read(s, n, None)])
            else
              var w := st.writeQueue[k];
              var a := Spec.Flush(c, st, |st.readQueue| + k + 1);
              && w.length <= |w.span| && a.readQueue == [] && Spec.AnswersOk(a.completed)
              && Spec.AnswerTotal(a.completed) + n <= c.readFrames
              && Spec.EnqueueRead(c, st, s, n) ==
                 a.(readQueue := a.readQueue + [Spec.Read(s, n, if Spec.Covers(w, s, n) then Some(Spec.CopyOut(w, s, n)) else None)])
  {
    hide Spec.Flush, Spec.WritesOk, Spec.ReadsOk, Spec.SpanTotal, Live, Spec.Replay;
    var k := Spec.LastOverlap(st.writeQueue, s, n);
    if k >= 0 {
      ShapeWrite(c, st, k);
      FlushTakesPrefix(c, st, k + 1);
      FlushKeepsReadFree(c, st, |st.readQueue| + k + 1);
    }
  }

  /** The frames the copy takes, all of them free by then. */
  lemma {:induction false} FreedCopy(w: Spec.Write, s: nat, n: nat)
    requires Spec.Covers(w, s, n) && w.length <= |w.span|
    ensures var off := s - w.sector;
            off + n <= |Unsuperseded(Freed(w.span))| && Unsuperseded(Freed(w.span))[off..off + n] == Spec.CopyOut(w, s, n)
  {
    UnsupersededAll(Freed(w.span));
  }

  lemma {:induction false} LastOverlapNone(ws: seq<Spec.Write>, s: nat, n: nat)
    ensures Spec.LastOverlap(ws[..0], s, n) == -1
  {
  }

  lemma {:induction false} LastOverlapSnoc(ws: seq<Spec.Write>, s: nat, n: nat, i: nat)
    requires i < |ws|
    ensures Spec.LastOverlap(ws[..i + 1], s, n) ==
            if ws[i].valid && Spec.Overlaps(ws[i], s, n) then i else Spec.LastOverlap(ws[..i], s, n)
  {
  }

  lemma {:induction false} UnsupersededBounds(fs: seq<Frame>)
    ensures Unsuperseded(fs[..0]) == [] && fs[..|fs|] == fs
  {
  }

  lemma {:induction false} UnsupersededPrefix(fs: seq<Frame>, i: nat)
    requires i <= |fs|
    ensures |Unsuperseded(fs[..i])| <= |Unsuperseded(fs)|
    ensures Unsuperseded(fs)[..|Unsuperseded(fs[..i])|] == Unsuperseded(fs[..i])
    decreases |fs| - i
  {
    if i < |fs| {
      UnsupersededPrefix(fs, i + 1);
      assert fs[..i + 1][..i] == fs[..i];
    } else {
      assert fs[..i] == fs;
    }
  }

  /** One step of a scan that has not counted enough frames yet. */
  lemma {:induction false} UnsupersededStep(fs: seq<Frame>, i: nat)
    requires i <= |fs| && (i == |fs| ==> |Unsuperseded(fs[..i])| < |Unsuperseded(fs)|)
    ensures i < |fs|
    ensures Unsuperseded(fs[..i + 1]) == Unsuperseded(fs[..i]) + (if fs[i].status != 'I' then [fs[i].value] else [])
  {
    assert fs[..|fs|] == fs;
    if i < |fs| {
      assert fs[..i + 1][..i] == fs[..i];
    }
  }

  /** CHECK_OVERWRITE */
  predicate CheckOverwrite(v: Event, s: nat, n: nat) {
    v.ioType == WRITE && s <= v.sector && s + n >= v.sector + v.length
  }

  /** CHECK_SEQUENTIALITY */
  predicate CheckSequentiality(v: Event, s: nat) {
    v.ioType == WRITE && v.valid && v.sector + v.length == s
  }

  /** CHECK_IO_DEPENDENCY_FOR_WRITE */
  predicate CheckDependencyForWrite(v: Event, s: nat, n: nat) {
    var last := s + n - 1;
    var tempLast := v.sector + v.length - 1;
    v.ioType == WRITE && v.valid && v.sector < s && s < tempLast && tempLast < last
  }

  lemma {:induction false} FlushNone(c: Spec.Config, st: Spec.State)
    requires Spec.Shape(c, st)
    ensures Spec.Flush(c, st, 0) == st
  {
  }

  lemma {:induction false} FlushStep(c: Spec.Config, st: Spec.State, i: nat)
    requires Spec.Shape(c, st)
    ensures Spec.Flush(c, st, i + 1) == Spec.DequeueIo(c, Spec.Flush(c, st, i))
  {
    hide Spec.Shape, Spec.DequeueIo;
    FlushSplit(c, st, i, 1);
    var a := Spec.Flush(c, st, i);
    Spec.DequeueKeepsShape(c, a);
    FlushNone(c, Spec.DequeueIo(c, a));
  }

  /** One page more of `all` on flash. */
  lemma {:induction false} PutGrows(d: seq<Value>, s: nat, all: seq<Value>, done: nat, x: seq<Value>, rest: seq<Value>)
    requires done <= |all| && s + |all| <= |d| && all[done..] == x + rest
    ensures done + |x| <= |all| && rest == all[done + |x|..]
    ensures Put(Put(d, s, all[..done]), s + done, x) == Put(d, s, all[..done + |x|])
  {
    hide Put;
    assert |all[done..]| == |x| + |rest|;
    assert all[done + |x|..] == all[done..][|x|..] == rest;
    assert all[..done] + x == all[..done + |x|];
    assert all[..done][..done] == all[..done];
    PutMerge(d, s, all[..done], s + done, x);
  }

  /** The frames one page of the FTL's loop takes from what is left of a span. */
  lemma {:induction false} FtlStep(rest: seq<Frame>, n: nat) returns (i: nat)
    requires 0 < n <= |Live(rest)| && rest != [] && rest[|rest| - 1].status == 'V'
    ensures 0 < i <= |rest| && |Live(rest[..i])| == n && rest[i - 1].status == 'V'
    ensures Live(rest) == Live(rest[..i]) + Live(rest[i..])
    ensures n == |Live(rest)| <==> i == |rest|
  {
    i := Reach(rest, n);
    LiveSplit(rest, i);
    LiveStrict(rest, i);
  }
}
