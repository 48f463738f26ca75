/** The block layer: byte access on top of a device of 512-byte sectors, and committing an overlay. */
module Block {
  import opened Options
  import opened Words

  const SECTOR_SIZE := 512
  const EIO := 5
  const EACCES := 13
  const ENOTSUP := 95
  const ENOMEDIUM := 123

  /** The contents as an array of bytes without an end; there is nothing but zeros outside the image. */
  function ByteAt(data: seq<Byte>, i: int): Byte {
    if 0 <= i < |data| then data[i] else Byte(0)
  }

  function Slice(data: seq<Byte>, at: int, n: nat): (s: seq<Byte>)
    ensures |s| == n
  {
    seq(n, i requires 0 <= i < n => ByteAt(data, at + i))
  }

  /** after is before with exactly the bytes from at on replaced by buf. */
  ghost predicate Overlaid(before: seq<Byte>, after: seq<Byte>, at: int, buf: seq<Byte>) {
    forall i: int :: ByteAt(after, i) == if at <= i < at + |buf| then buf[i - at] else ByteAt(before, i)
  }

  /** Every byte is the old one or, inside the range only, the new one. */
  ghost predicate Mixed(before: seq<Byte>, after: seq<Byte>, at: int, buf: seq<Byte>) {
    forall i: int :: ByteAt(after, i) == ByteAt(before, i) || (at <= i < at + |buf| && ByteAt(after, i) == buf[i - at])
  }

  lemma {:induction false} OverlaidThen(a: seq<Byte>, b: seq<Byte>, c: seq<Byte>, at: int, x: seq<Byte>, y: seq<Byte>)
    requires Overlaid(a, b, at, x) && Overlaid(b, c, at + |x|, y)
    ensures Overlaid(a, c, at, x + y)
  {
  }

  lemma {:induction false} OverlaidMixed(a: seq<Byte>, b: seq<Byte>, c: seq<Byte>, at: int, x: seq<Byte>, y: seq<Byte>, all: seq<Byte>)
    requires Overlaid(a, b, at, x) && Mixed(b, c, at + |x|, y) && x + y <= all
    ensures Mixed(a, c, at, all)
  {
  }

  lemma {:induction false} OverlaidIsMixed(a: seq<Byte>, b: seq<Byte>, at: int, x: seq<Byte>, all: seq<Byte>)
    requires Overlaid(a, b, at, x) && x <= all
    ensures Mixed(a, b, at, all)
  {
  }

  lemma {:induction false} MixedItself(a: seq<Byte>, at: int, buf: seq<Byte>)
    ensures Mixed(a, a, at, buf)
  {
  }

  /** A sector with len of its bytes patched from byte off on. */
  function Patched(sector: seq<Byte>, off: nat, buf: seq<Byte>): (s: seq<Byte>)
    requires off + |buf| <= |sector|
    ensures |s| == |sector|
  {
    sector[..off] + buf + sector[off + |buf|..]
  }

  /** Writing back a patched sector changes the patch and nothing else. */
  lemma {:induction false} PatchIsOverlay(a: seq<Byte>, b: seq<Byte>, at: int, off: nat, buf: seq<Byte>)
    requires off + |buf| <= SECTOR_SIZE
    requires Overlaid(a, b, at, Patched(Slice(a, at, SECTOR_SIZE), off, buf))
    ensures Overlaid(a, b, at + off, buf)
  {
    hide ByteAt;
    var sector := Patched(Slice(a, at, SECTOR_SIZE), off, buf);
    forall i: int
      ensures ByteAt(b, i) == if at + off <= i < at + off + |buf| then buf[i - (at + off)] else ByteAt(a, i)
    {
      if at <= i < at + SECTOR_SIZE {
        PatchedAt(a, at, off, buf, i - at);
      }
    }
  }

  lemma {:induction false} PatchedAt(a: seq<Byte>, at: int, off: nat, buf: seq<Byte>, j: nat)
    requires off + |buf| <= SECTOR_SIZE && j < SECTOR_SIZE
    ensures Patched(Slice(a, at, SECTOR_SIZE), off, buf)[j] ==
            if off <= j < off + |buf| then buf[j - off] else ByteAt(a, at + j)
  {
  }

  // ---------------------------------------------------------------------------------------------
  // The sector device

  /** The image with n bytes written at a place, filled up with zeros when it has to grow. */
  function Stored(data: seq<Byte>, at: nat, buf: seq<Byte>): (r: seq<Byte>)
    ensures |data| <= |r|
  {
    if at + |buf| <= |data| then data[..at] + buf + data[at + |buf|..]
    else
      var filled := if at <= |data| then data[..at] else data + seq(at - |data|, _ => Byte(0));
      filled + buf
  }

  lemma {:induction false} StoredIsOverlay(data: seq<Byte>, at: nat, buf: seq<Byte>)
    ensures Overlaid(data, Stored(data, at, buf), at, buf)
  {
  }

  class BlockDevice {
    var data: seq<Byte>
    var calls: nat
    const growable: bool
    const readOnly: bool
    const inserted: bool
    /** What driver call k does: succeed, or fail, a write after so many sectors. */
    const fault: nat -> Option<nat>

    constructor (contents: seq<Byte>, grows: bool, ro: bool, media: bool, faults: nat -> Option<nat>)
      ensures data == contents && growable == grows && readOnly == ro && inserted == media && fault == faults
    {
      data, calls, growable, readOnly, inserted, fault := contents, 0, grows, ro, media, faults;
    }

    /** bdrv_check_request */
    function CheckRequest(sector: int, n: nat): int
      reads this
    {
      if !inserted then -ENOMEDIUM
      else if growable then 0
      else if sector * SECTOR_SIZE < 0 then -EIO
      else if sector * SECTOR_SIZE > |data| || |data| - sector * SECTOR_SIZE < n * SECTOR_SIZE then -EIO
      else 0
    }

    /** A request the driver sees and can serve. */
    predicate InRange(sector: int, n: nat)
      reads this
    {
      inserted && 0 <= sector && (growable || (sector + n) * SECTOR_SIZE <= |data|)
    }

    method BdrvRead(sector: int, n: nat) returns (r: int, buf: seq<Byte>)
      modifies this`calls
      ensures r <= 0
      ensures r == 0 ==> buf == Slice(data, sector * SECTOR_SIZE, n * SECTOR_SIZE)
      ensures r == 0 <==> InRange(sector, n) && fault(old(calls)).None?
      ensures calls == old(calls) + if InRange(sector, n) then 1 else 0
    {
      buf := [];
      if !inserted {
        return -ENOMEDIUM, buf;
      }
      if CheckRequest(sector, n) != 0 {
        return -EIO, buf;
      }
      if sector < 0 {
        return -EIO, buf;
      }
      var f := fault(calls);
      calls := calls + 1;
      if f.Some? {
        return -EIO, buf;
      }
      return 0, Slice(data, sector * SECTOR_SIZE, n * SECTOR_SIZE);
    }

    method BdrvWrite(sector: int, buf: seq<Byte>, n: nat) returns (r: int)
      requires |buf| == n * SECTOR_SIZE
      modifies this`data, this`calls
      ensures r <= 0
      ensures |old(data)| <= |data|
      ensures r == 0 ==> Overlaid(old(data), data, sector * SECTOR_SIZE, buf)
      ensures r != 0 ==> Mixed(old(data), data, sector * SECTOR_SIZE, buf)
      ensures r != 0 && n == 1 ==> data == old(data)
      ensures !growable ==> |data| == |old(data)|
      ensures r == 0 <==> old(InRange(sector, n)) && !readOnly && fault(old(calls)).None?
      ensures calls == old(calls) + if old(InRange(sector, n)) && !readOnly then 1 else 0
    {
      hide Overlaid, Mixed, Stored;
      MixedItself(data, sector * SECTOR_SIZE, buf);
      if !inserted {
        return -ENOMEDIUM;
      }
      if readOnly {
        return -EACCES;
      }
      if CheckRequest(sector, n) != 0 {
        return -EIO;
      }
      if sector < 0 {
        return -EIO;
      }
      var f := fault(calls);
      calls := calls + 1;
      var at := sector * SECTOR_SIZE;
      if f.Some? {
        if f.value < n && f.value != 0 {
          var part := buf[..f.value * SECTOR_SIZE];
          StoredIsOverlay(data, at, part);
          OverlaidIsMixed(data, Stored(data, at, part), at, part, buf);
          StoredSize(data, at, part);
          data := Stored(data, at, part);
        }
        return -EIO;
      }
      StoredIsOverlay(data, at, buf);
      StoredSize(data, at, buf);
      data := Stored(data, at, buf);
      return 0;
    }
  }

  lemma {:induction false} StoredSize(data: seq<Byte>, at: nat, buf: seq<Byte>)
    ensures at + |buf| <= |data| ==> |Stored(data, at, buf)| == |data|
  {
  }
}
