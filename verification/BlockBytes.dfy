/** bdrv_pread and bdrv_pwrite: any offset and any number of bytes. */
module BlockBytes {
  import opened Options
  import opened Words
  import opened Block

  function RoundUp(n: int): (m: int)
    ensures m % SECTOR_SIZE == 0 && n <= m < n + SECTOR_SIZE
  {
    (n + SECTOR_SIZE - 1) / SECTOR_SIZE * SECTOR_SIZE
  }

  /** All sectors that hold a byte of the request are on the medium. */
  ghost predicate Accessible(dev: BlockDevice, offset: int, count: nat)
    reads dev
  {
    count == 0 || (dev.inserted && 0 <= offset && (dev.growable || RoundUp(offset + count) <= |dev.data|))
  }

  ghost predicate NoFaults(dev: BlockDevice) {
    forall k: nat :: dev.fault(k).None?
  }

  /** One of the driver calls from, from+1, ..., to-1 has failed. */
  ghost predicate Faulty(dev: BlockDevice, from: nat, to: nat) {
    exists k: nat | from <= k < to :: dev.fault(k).Some?
  }

  lemma {:induction false} FaultySplit(dev: BlockDevice, from: nat, mid: nat, to: nat)
    requires from <= mid <= to
    ensures Faulty(dev, from, to) <==> Faulty(dev, from, mid) || Faulty(dev, mid, to)
  {
  }

  lemma {:induction false} FaultyOne(dev: BlockDevice, k: nat)
    ensures !Faulty(dev, k, k) && (Faulty(dev, k, k + 1) <==> dev.fault(k).Some?)
  {
    if dev.fault(k).Some? {
      assert k <= k < k + 1;
    }
  }

  lemma {:induction false} NeverFaulty(dev: BlockDevice, from: nat, to: nat)
    requires NoFaults(dev)
    ensures !Faulty(dev, from, to)
  {
  }

  lemma {:induction false} SliceOfSector(data: seq<Byte>, at: int, off: nat, len: nat)
    requires off + len <= SECTOR_SIZE
    ensures Slice(data, at, SECTOR_SIZE)[off..off + len] == Slice(data, at + off, len)
  {
  }

  /** The part of the request in its first sector, when that sector is not requested from its start. */
  function Head(offset: int, count: nat): (len: nat)
    ensures len <= count && len < SECTOR_SIZE
    ensures len > 0 ==> 0 < offset % SECTOR_SIZE && offset % SECTOR_SIZE + len <= SECTOR_SIZE
    ensures len < count ==> (offset + len) % SECTOR_SIZE == 0
    ensures len == 0 ==> count == 0 || offset % SECTOR_SIZE == 0
  {
    var len := (SECTOR_SIZE - offset) % SECTOR_SIZE;
    if len > count then count else len
  }

  method CopyInto(buf: array<Byte>, at: nat, src: seq<Byte>)
    requires at + |src| <= buf.Length
    modifies buf
    ensures buf[..at] == old(buf[..at]) && buf[at..at + |src|] == src
    ensures buf[at + |src|..] == old(buf[at + |src|..])
  {
    var i := 0;
    while i < |src|
      invariant 0 <= i <= |src|
      invariant buf[..at] == old(buf[..at]) && buf[at..at + i] == src[..i]
      invariant buf[at + i..] == old(buf[at + i..])
    {
      buf[at + i] := src[i];
      i := i + 1;
    }
  }

  /** A piece of len bytes at position at of the request, inside n sectors: all of them, or a part of one. */
  ghost predicate Piece(offset: int, at: nat, len: nat, sector: int, n: nat, off: nat) {
    && 0 < len && 0 < n && sector * SECTOR_SIZE + off == offset + at
    && (if n == 1 then off + len <= SECTOR_SIZE else off == 0 && len == n * SECTOR_SIZE)
  }

  lemma {:induction false} PieceRange(dev: BlockDevice, offset: int, at: nat, len: nat, sector: int, n: nat, off: nat)
    requires Piece(offset, at, len, sector, n, off) && Accessible(dev, offset, at)
    ensures dev.InRange(sector, n) <==> Accessible(dev, offset, at + len)
  {
    assert RoundUp(offset + at + len) == (sector + n) * SECTOR_SIZE by {
      var m := RoundUp(offset + at + len);
      assert m % SECTOR_SIZE == 0;
    }
  }

  lemma {:induction false} AccessibleLess(dev: BlockDevice, offset: int, less: nat, count: nat)
    requires less <= count && Accessible(dev, offset, count)
    ensures Accessible(dev, offset, less)
  {
  }

  // ---------------------------------------------------------------------------------------------
  // Reading

  ghost predicate Got(data: seq<Byte>, offset: int, buf: seq<Byte>, at: nat) {
    at <= |buf| && buf[..at] == Slice(data, offset, at)
  }

  lemma {:induction false} GotMore(data: seq<Byte>, offset: int, before: seq<Byte>, after: seq<Byte>, at: nat, len: nat)
    requires Got(data, offset, before, at) && |after| == |before| && at + len <= |after|
    requires after[..at] == before[..at] && after[at..at + len] == Slice(data, offset + at, len)
    ensures Got(data, offset, after, at + len)
  {
  }

  /** One driver read, and the bytes of the piece copied into the buffer. */
  method ReadPiece(dev: BlockDevice, offset: int, buf: array<Byte>, at: nat, len: nat, sector: int, n: nat, off: nat)
    returns (r: int)
    requires Piece(offset, at, len, sector, n, off) && at + len <= buf.Length
    requires Got(dev.data, offset, buf[..], at) && Accessible(dev, offset, at)
    modifies dev`calls, buf
    ensures r <= 0
    ensures r == 0 ==> Got(dev.data, offset, buf[..], at + len) && Accessible(dev, offset, at + len)
    ensures old(dev.calls) <= dev.calls && (r == 0 ==> !Faulty(dev, old(dev.calls), dev.calls))
    ensures r < 0 && Accessible(dev, offset, buf.Length) ==> Faulty(dev, old(dev.calls), dev.calls)
  {
    hide Slice, Got, RoundUp;
    PieceRange(dev, offset, at, len, sector, n, off);
    if Accessible(dev, offset, buf.Length) {
      AccessibleLess(dev, offset, at + len, buf.Length);
    }
    var tmp;
    FaultyOne(dev, dev.calls);
    r, tmp := dev.BdrvRead(sector, n);
    if r < 0 {
      return;
    }
    ghost var before := buf[..];
    if n == 1 {
      SliceOfSector(dev.data, sector * SECTOR_SIZE, off, len);
    } else {
      assert tmp[off..off + len] == tmp;
    }
    CopyInto(buf, at, tmp[off..off + len]);
    GotMore(dev.data, offset, before, buf[..], at, len);
  }

  method PRead(dev: BlockDevice, offset: int, buf: array<Byte>) returns (r: int)
    modifies dev`calls, buf
    ensures r == buf.Length || r == -EIO
    ensures r >= 0 ==> buf[..] == Slice(dev.data, offset, buf.Length)
    ensures old(dev.calls) <= dev.calls
    ensures r >= 0 <==> Accessible(dev, offset, buf.Length) && !Faulty(dev, old(dev.calls), dev.calls)
  {
    hide Slice, Faulty, Accessible, Got;
    FaultyOne(dev, dev.calls);
    var count := buf.Length;
    var len := Head(offset, count);
    var sector := offset / SECTOR_SIZE;
    var at := 0;
    GotNothing(dev, offset, buf[..]);
    if len > 0 {
      ghost var k := dev.calls;
      var ret := ReadPiece(dev, offset, buf, 0, len, sector, 1, offset % SECTOR_SIZE);
      FaultySplit(dev, old(dev.calls), k, dev.calls);
      if ret < 0 {
        return -EIO;
      }
      count := count - len;
      if count == 0 {
        GotAll(dev.data, offset, buf[..]);
        return buf.Length;
      }
      sector := sector + 1;
      at := at + len;
    }
    var n := count / SECTOR_SIZE;
    if n > 0 {
      ghost var k := dev.calls;
      var ret := ReadPiece(dev, offset, buf, at, n * SECTOR_SIZE, sector, n, 0);
      FaultySplit(dev, old(dev.calls), k, dev.calls);
      if ret < 0 {
        return -EIO;
      }
      at := at + n * SECTOR_SIZE;
      sector := sector + n;
      count := count - n * SECTOR_SIZE;
    }
    if count > 0 {
      ghost var k := dev.calls;
      var ret := ReadPiece(dev, offset, buf, at, count, sector, 1, 0);
      FaultySplit(dev, old(dev.calls), k, dev.calls);
      if ret < 0 {
        return -EIO;
      }
    }
    GotAll(dev.data, offset, buf[..]);
    return buf.Length;
  }

  lemma {:induction false} GotNothing(dev: BlockDevice, offset: int, buf: seq<Byte>)
    ensures Got(dev.data, offset, buf, 0) && Accessible(dev, offset, 0)
  {
  }

  lemma {:induction false} GotAll(data: seq<Byte>, offset: int, buf: seq<Byte>)
    requires Got(data, offset, buf, |buf|)
    ensures buf == Slice(data, offset, |buf|)
  {
  }

  // ---------------------------------------------------------------------------------------------
  // Writing

  /** Whole sectors are written as they are. */
  method WriteWhole(dev: BlockDevice, offset: int, buf: seq<Byte>, at: nat, sector: int, n: nat, ghost was: seq<Byte>)
    returns (r: int)
    requires Piece(offset, at, n * SECTOR_SIZE, sector, n, 0) && at + n * SECTOR_SIZE <= |buf|
    requires Overlaid(was, dev.data, offset, buf[..at]) && Accessible(dev, offset, at)
    modifies dev`calls, dev`data
    ensures r <= 0 && |dev.data| >= old(|dev.data|) && (!dev.growable ==> |dev.data| == old(|dev.data|))
    ensures r == 0 ==> !dev.readOnly && Accessible(dev, offset, at + n * SECTOR_SIZE)
    ensures r == 0 ==> Overlaid(was, dev.data, offset, buf[..at + n * SECTOR_SIZE])
    ensures r != 0 ==> Mixed(was, dev.data, offset, buf)
    ensures old(dev.calls) <= dev.calls && (r == 0 ==> !Faulty(dev, old(dev.calls), dev.calls))
    ensures r < 0 && old(Accessible(dev, offset, |buf|)) && !dev.readOnly ==> Faulty(dev, old(dev.calls), dev.calls)
  {
    hide Overlaid, Mixed, RoundUp;
    ghost var mid := dev.data;
    PieceRange(dev, offset, at, n * SECTOR_SIZE, sector, n, 0);
    if Accessible(dev, offset, |buf|) {
      AccessibleLess(dev, offset, at + n * SECTOR_SIZE, |buf|);
    }
    var part := buf[at..at + n * SECTOR_SIZE];
    FaultyOne(dev, dev.calls);
    r := dev.BdrvWrite(sector, part, n);
    assert buf[..at] + part == buf[..at + n * SECTOR_SIZE];
    if r == 0 {
      OverlaidThen(was, mid, dev.data, offset, buf[..at], part);
    } else {
      OverlaidMixed(was, mid, dev.data, offset, buf[..at], part, buf);
    }
  }

  /** A part of one sector is read, patched and written back. */
  method WritePart(dev: BlockDevice, offset: int, buf: seq<Byte>, at: nat, len: nat, sector: int, off: nat, ghost was: seq<Byte>)
    returns (r: int)
    requires Piece(offset, at, len, sector, 1, off) && at + len <= |buf|
    requires Overlaid(was, dev.data, offset, buf[..at]) && Accessible(dev, offset, at)
    modifies dev`calls, dev`data
    ensures r <= 0 && |dev.data| >= old(|dev.data|) && (!dev.growable ==> |dev.data| == old(|dev.data|))
    ensures r == 0 ==> !dev.readOnly && Accessible(dev, offset, at + len)
    ensures r == 0 ==> Overlaid(was, dev.data, offset, buf[..at + len])
    ensures r != 0 ==> Mixed(was, dev.data, offset, buf)
    ensures old(dev.calls) <= dev.calls && (r == 0 ==> !Faulty(dev, old(dev.calls), dev.calls))
    ensures r < 0 && old(Accessible(dev, offset, |buf|)) && !dev.readOnly ==> Faulty(dev, old(dev.calls), dev.calls)
  {
    hide Overlaid, Mixed, RoundUp, Patched, Slice;
    ghost var mid := dev.data;
    PieceRange(dev, offset, at, len, sector, 1, off);
    if Accessible(dev, offset, |buf|) {
      AccessibleLess(dev, offset, at + len, |buf|);
    }
    OverlaidIsMixed(was, mid, offset, buf[..at], buf);
    var tmp;
    FaultyOne(dev, dev.calls);
    r, tmp := dev.BdrvRead(sector, 1);
    if r < 0 {
      return;
    }
    var part := buf[at..at + len];
    ghost var k := dev.calls;
    FaultyOne(dev, k);
    r := dev.BdrvWrite(sector, Patched(tmp, off, part), 1);
    FaultySplit(dev, old(dev.calls), k, dev.calls);
    assert buf[..at] + part == buf[..at + len];
    if r == 0 {
      PatchIsOverlay(mid, dev.data, sector * SECTOR_SIZE, off, part);
      OverlaidThen(was, mid, dev.data, offset, buf[..at], part);
    }
  }

  method PWrite(dev: BlockDevice, offset: int, buf: seq<Byte>) returns (r: int)
    modifies dev`calls, dev`data
    ensures r == |buf| || r == -EIO
    ensures r >= 0 ==> Overlaid(old(dev.data), dev.data, offset, buf)
    ensures r < 0 ==> Mixed(old(dev.data), dev.data, offset, buf)
    ensures old(dev.calls) <= dev.calls && (r >= 0 ==> Accessible(dev, offset, |buf|))
    ensures r >= 0 <==> && old(Accessible(dev, offset, |buf|)) && (buf == [] || !dev.readOnly)
                        && !Faulty(dev, old(dev.calls), dev.calls)
  {
    hide Overlaid, Mixed, Faulty, RoundUp;
    FaultyOne(dev, dev.calls);
    ghost var was := dev.data;
    var count := |buf|;
    var len := Head(offset, count);
    var sector := offset / SECTOR_SIZE;
    var at := 0;
    PutNothing(dev.data, offset, buf);
    if len > 0 {
      ghost var k := dev.calls;
      var ret := WritePart(dev, offset, buf, 0, len, sector, offset % SECTOR_SIZE, was);
      FaultySplit(dev, old(dev.calls), k, dev.calls);
      if ret < 0 {
        return -EIO;
      }
      count := count - len;
      if count == 0 {
        assert buf[..len] == buf;
        return |buf|;
      }
      sector := sector + 1;
      at := at + len;
    }
    var n := count / SECTOR_SIZE;
    if n > 0 {
      ghost var k := dev.calls;
      var ret := WriteWhole(dev, offset, buf, at, sector, n, was);
      FaultySplit(dev, old(dev.calls), k, dev.calls);
      if ret < 0 {
        return -EIO;
      }
      at := at + n * SECTOR_SIZE;
      sector := sector + n;
      count := count - n * SECTOR_SIZE;
    }
    if count > 0 {
      ghost var k := dev.calls;
      var ret := WritePart(dev, offset, buf, at, count, sector, 0, was);
      FaultySplit(dev, old(dev.calls), k, dev.calls);
      if ret < 0 {
        return -EIO;
      }
    }
    assert buf[..|buf|] == buf;
    return |buf|;
  }

  lemma {:induction false} PutNothing(data: seq<Byte>, offset: int, buf: seq<Byte>)
    ensures Overlaid(data, data, offset, buf[..0])
  {
  }

  // ---------------------------------------------------------------------------------------------
  // Both together

  lemma {:induction false} OverlaidSlice(before: seq<Byte>, after: seq<Byte>, at: int, buf: seq<Byte>)
    requires Overlaid(before, after, at, buf)
    ensures Slice(after, at, |buf|) == buf
  {
  }

  /** What was written is what is read. */
  method WriteThenRead(dev: BlockDevice, offset: int, buf: seq<Byte>, into: array<Byte>) returns (wrote: int, got: int)
    requires into.Length == |buf|
    modifies dev`calls, dev`data, into
    ensures wrote >= 0 && got >= 0 ==> into[..] == buf
    ensures NoFaults(dev) && old(Accessible(dev, offset, |buf|)) && !dev.readOnly ==> wrote >= 0 && got >= 0
  {
    hide Overlaid, Mixed, Slice, NoFaults, RoundUp;
    wrote := PWrite(dev, offset, buf);
    ghost var k := dev.calls;
    got := PRead(dev, offset, into);
    if NoFaults(dev) {
      NeverFaulty(dev, old(dev.calls), k);
      NeverFaulty(dev, k, dev.calls);
    }
    if wrote >= 0 && got >= 0 {
      OverlaidSlice(old(dev.data), dev.data, offset, buf);
    }
  }
}
