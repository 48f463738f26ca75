/** bdrv_commit: the sectors of an overlay are written to its backing image. */
module BlockCommit {
  import opened Options
  import opened Words
  import opened Block

  /** An image that holds some sectors itself and shows its backing image everywhere else. */
  class Overlay {
    var own: map<int, seq<Byte>>
    const total: nat
    const hasDriver: bool
    const hasBacking: bool
    /** The backing image, where there is one. */
    const backing: BlockDevice
    const readOnly: bool
    /** How far the driver says the state of a sector extends. */
    const run: int -> int
    /** Whether driver read k of the overlay fails. */
    const bad: int -> bool
    /** What emptying the overlay returns, where the driver can do it. */
    const makeEmpty: Option<int>

    constructor (sectors: map<int, seq<Byte>>, size: nat, driver: bool, backed: bool, base: BlockDevice, ro: bool,
                 runs: int -> int, faults: int -> bool, empties: Option<int>)
      requires RunsOk(sectors, size, runs)
      requires forall i | i in sectors :: |sectors[i]| == SECTOR_SIZE
      ensures own == sectors && total == size && hasDriver == driver && hasBacking == backed && backing == base
      ensures readOnly == ro && run == runs && bad == faults && makeEmpty == empties && Valid()
    {
      own, total, hasDriver, hasBacking, backing := sectors, size, driver, backed, base;
      readOnly, run, bad, makeEmpty := ro, runs, faults, empties;
    }

    ghost predicate Valid()
      reads this
    {
      RunsOk(own, total, run) && (forall i | i in own :: |own[i]| == SECTOR_SIZE)
    }
  }

  /** The driver answers with runs of at least one sector, of one state, inside the image. */
  ghost predicate RunsOk(own: map<int, seq<Byte>>, total: nat, run: int -> int) {
    forall i | 0 <= i < total ::
      1 <= run(i) <= total - i && run(i) <= 65536 && (forall j | i <= j < i + run(i) :: j in own <==> i in own)
  }

  /** The sector the overlay shows. */
  ghost function Shown(own: map<int, seq<Byte>>, base: seq<Byte>, i: int): seq<Byte> {
    if i in own then own[i] else Slice(base, i * SECTOR_SIZE, SECTOR_SIZE)
  }

  /** Sectors up to n are in the backing image as the overlay shows them; everything from there on is as before. */
  ghost predicate Copied(own: map<int, seq<Byte>>, was: seq<Byte>, base: seq<Byte>, n: int) {
    && (forall i | 0 <= i < n :: Slice(base, i * SECTOR_SIZE, SECTOR_SIZE) == Shown(own, was, i))
    && (forall i: int | i >= n * SECTOR_SIZE :: ByteAt(base, i) == ByteAt(was, i))
  }

  /** One sector more, from the overlay. */
  lemma {:induction false} CopyOne(own: map<int, seq<Byte>>, was: seq<Byte>, base: seq<Byte>, next: seq<Byte>, n: nat)
    requires Copied(own, was, base, n) && n in own && |own[n]| == SECTOR_SIZE
    requires Overlaid(base, next, n * SECTOR_SIZE, own[n])
    ensures Copied(own, was, next, n + 1)
  {
  }

  lemma {:induction false} SkipRun(own: map<int, seq<Byte>>, was: seq<Byte>, base: seq<Byte>, n: nat, k: nat)
    requires Copied(own, was, base, n) && forall j | n <= j < n + k :: j !in own
    ensures Copied(own, was, base, n + k)
    decreases k
  {
  }

  ghost predicate SameImage(own: map<int, seq<Byte>>, was: seq<Byte>, own2: map<int, seq<Byte>>, base: seq<Byte>, total: nat) {
    forall i | 0 <= i < total :: Shown(own2, base, i) == Shown(own, was, i)
  }

  /** The whole image, whatever is left in the overlay. */
  lemma {:induction false} AllCopied(own: map<int, seq<Byte>>, was: seq<Byte>, base: seq<Byte>, total: nat)
    requires Copied(own, was, base, total)
    ensures SameImage(own, was, map[], base, total) && SameImage(own, was, own, base, total)
  {
    hide ByteAt, Slice;
    forall i | 0 <= i < total
      ensures Shown(map[], base, i) == Shown(own, was, i) && Shown(own, base, i) == Shown(own, was, i)
    {
      assert Slice(base, i * SECTOR_SIZE, SECTOR_SIZE) == Shown(own, was, i);
    }
  }

  lemma {:induction false} PartlyCopied(own: map<int, seq<Byte>>, was: seq<Byte>, base: seq<Byte>, n: nat, total: nat)
    requires Copied(own, was, base, n)
    ensures SameImage(own, was, own, base, total)
  {
  }

  lemma {:induction false} NothingCopied(own: map<int, seq<Byte>>, was: seq<Byte>)
    ensures Copied(own, was, was, 0)
  {
  }

  // ---------------------------------------------------------------------------------------------
  // When a commit succeeds

  /** How many sectors below n the overlay holds: the writes to the backing image that come before sector n. */
  ghost function OwnBelow(own: map<int, seq<Byte>>, n: nat): nat {
    if n == 0 then 0 else OwnBelow(own, n - 1) + (if n - 1 in own then 1 else 0)
  }

  /** Sector j of the overlay can be read, and the backing image, of `size` bytes and with `calls` driver calls made
      before the commit, takes it. */
  ghost predicate CanCopy(own: map<int, seq<Byte>>, bad: int -> bool, base: BlockDevice, size: nat, calls: nat, j: nat) {
    && !bad(j)
    && base.inserted && !base.readOnly && (base.growable || (j + 1) * SECTOR_SIZE <= size)
    && base.fault(calls + OwnBelow(own, j)).None?
  }

  /** The same for all the overlay's sectors in a range. */
  ghost predicate CanCopyAll(own: map<int, seq<Byte>>, bad: int -> bool, base: BlockDevice, size: nat, calls: nat,
                             from: nat, to: nat) {
    forall j | from <= j < to && j in own :: CanCopy(own, bad, base, size, calls, j)
  }

  lemma {:induction false} OwnBelowSkip(own: map<int, seq<Byte>>, n: nat, k: nat)
    requires forall j | n <= j < n + k :: j !in own
    ensures OwnBelow(own, n + k) == OwnBelow(own, n)
    decreases k
  {
    if k > 0 { OwnBelowSkip(own, n, k - 1); }
  }

  /** Without a fault and with room, every sector can be copied. */
  lemma {:induction false} NoFaultCopies(own: map<int, seq<Byte>>, bad: int -> bool, base: BlockDevice, size: nat, calls: nat, total: nat)
    requires (forall i :: !bad(i)) && (forall k :: base.fault(k).None?)
    requires base.inserted && !base.readOnly && (base.growable || total * SECTOR_SIZE <= size)
    ensures CanCopyAll(own, bad, base, size, calls, 0, total)
  {
    forall j | 0 <= j < total && j in own
      ensures CanCopy(own, bad, base, size, calls, j)
    {
      assert (j + 1) * SECTOR_SIZE <= total * SECTOR_SIZE;
    }
  }

  /** One sector: read from the overlay, written to the backing image. */
  method CommitSector(bs: Overlay, i: nat, ghost was: seq<Byte>, ghost calls: nat) returns (r: int)
    requires bs.Valid() && i in bs.own
    requires Copied(bs.own, was, bs.backing.data, i) && (bs.backing.growable || |bs.backing.data| == |was|)
    requires bs.backing.calls == calls + OwnBelow(bs.own, i)
    modifies bs.backing`data, bs.backing`calls
    ensures r == if CanCopy(bs.own, bs.bad, bs.backing, |was|, calls, i) then 0 else -EIO
    ensures Copied(bs.own, was, bs.backing.data, if r == 0 then i + 1 else i)
    ensures bs.backing.growable || |bs.backing.data| == |was|
    ensures r == 0 ==> bs.backing.calls == calls + OwnBelow(bs.own, i + 1)
  {
    hide Copied, Slice, Overlaid, Mixed;
    if bs.bad(i) {
      return -EIO;
    }
    var sector := bs.own[i];
    ghost var base := bs.backing.data;
    var ret := bs.backing.BdrvWrite(i, sector, 1);
    if ret != 0 {
      return -EIO;
    }
    CopyOne(bs.own, was, base, bs.backing.data, i);
    return 0;
  }

  /** The sectors of one run, written one by one: up to the first that cannot be copied. */
  method CommitRun(bs: Overlay, from: nat, n: nat, ghost was: seq<Byte>, ghost calls: nat) returns (r: int, i: nat)
    requires bs.Valid() && forall j | from <= j < from + n :: j in bs.own
    requires Copied(bs.own, was, bs.backing.data, from) && (bs.backing.growable || |bs.backing.data| == |was|)
    requires bs.backing.calls == calls + OwnBelow(bs.own, from)
    modifies bs.backing`data, bs.backing`calls
    ensures from <= i <= from + n && Copied(bs.own, was, bs.backing.data, i)
    ensures bs.backing.growable || |bs.backing.data| == |was|
    ensures CanCopyAll(bs.own, bs.bad, bs.backing, |was|, calls, from, i)
    ensures if i == from + n then r == 0 && bs.backing.calls == calls + OwnBelow(bs.own, i)
            else r == -EIO && !CanCopy(bs.own, bs.bad, bs.backing, |was|, calls, i)
  {
    hide Copied, CanCopy, OwnBelow, RunsOk;
    i := from;
    var j := 0;
    while j < n
      invariant 0 <= j <= n && i == from + j
      invariant Copied(bs.own, was, bs.backing.data, i) && (bs.backing.growable || |bs.backing.data| == |was|)
      invariant bs.backing.calls == calls + OwnBelow(bs.own, i)
      invariant CanCopyAll(bs.own, bs.bad, bs.backing, |was|, calls, from, i)
    {
      var ret := CommitSector(bs, i, was, calls);
      if ret != 0 {
        return ret, i;
      }
      i := i + 1;
      j := j + 1;
    }
    return 0, i;
  }

  /** What is returned when nothing is copied. */
  function Refusal(bs: Overlay): int {
    if !bs.hasDriver then -ENOMEDIUM else if bs.readOnly then -EACCES else if !bs.hasBacking then -ENOTSUP else 0
  }

  /** `done` sectors are dealt with: all of them, or those before the first that cannot be copied. */
  method Commit(bs: Overlay) returns (r: int, ghost done: nat)
    requires bs.Valid()
    modifies bs`own, bs.backing`data, bs.backing`calls
    ensures Refusal(bs) != 0 ==> r == Refusal(bs) && done == 0 && bs.backing.data == old(bs.backing.data)
    ensures Refusal(bs) == 0 ==>
              && done <= bs.total
              && CanCopyAll(old(bs.own), bs.bad, bs.backing, |old(bs.backing.data)|, old(bs.backing.calls), 0, done)
              && (done < bs.total ==>
                    && r == -EIO && done in old(bs.own)
                    && !CanCopy(old(bs.own), bs.bad, bs.backing, |old(bs.backing.data)|, old(bs.backing.calls), done))
              && (done == bs.total ==> r == if bs.makeEmpty.Some? then bs.makeEmpty.value else 0)
    ensures Copied(old(bs.own), old(bs.backing.data), bs.backing.data, done)
    ensures SameImage(old(bs.own), old(bs.backing.data), bs.own, bs.backing.data, bs.total)
    ensures r == 0 ==> SameImage(old(bs.own), old(bs.backing.data), map[], bs.backing.data, bs.total)
    ensures r == 0 ==> forall i: int | i >= bs.total * SECTOR_SIZE :: ByteAt(bs.backing.data, i) == ByteAt(old(bs.backing.data), i)
    ensures bs.own == if r == 0 && bs.makeEmpty.Some? then map[] else old(bs.own)
  {
    hide Copied, Slice, SameImage, ByteAt, CanCopy;
    ghost var was, calls := bs.backing.data, bs.backing.calls;
    NothingCopied(bs.own, was);
    PartlyCopied(bs.own, was, was, 0, bs.total);
    done := 0;
    if !bs.hasDriver {
      return -ENOMEDIUM, 0;
    }
    if bs.readOnly {
      return -EACCES, 0;
    }
    if !bs.hasBacking {
      return -ENOTSUP, 0;
    }
    var i := 0;
    while i < bs.total
      invariant 0 <= i <= bs.total && bs.Valid() && bs.own == old(bs.own)
      invariant Copied(bs.own, was, bs.backing.data, i) && (bs.backing.growable || |bs.backing.data| == |was|)
      invariant bs.backing.calls == calls + OwnBelow(bs.own, i)
      invariant CanCopyAll(bs.own, bs.bad, bs.backing, |was|, calls, 0, i)
    {
      var n := bs.run(i);
      if i in bs.own {
        var ret, next := CommitRun(bs, i, n, was, calls);
        if ret != 0 {
          PartlyCopied(bs.own, was, bs.backing.data, next, bs.total);
          return ret, next;
        }
        i := next;
      } else {
        SkipRun(bs.own, was, bs.backing.data, i, n);
        OwnBelowSkip(bs.own, i, n);
        i := i + n;
      }
    }
    AllCopied(bs.own, was, bs.backing.data, bs.total);
    CopiedBeyond(bs.own, was, bs.backing.data, bs.total);
    done := bs.total;
    if bs.makeEmpty.Some? {
      if bs.makeEmpty.value == 0 {
        bs.own := map[];
      }
      return bs.makeEmpty.value, done;
    }
    return 0, done;
  }

  lemma {:induction false} CopiedBeyond(own: map<int, seq<Byte>>, was: seq<Byte>, base: seq<Byte>, n: nat)
    requires Copied(own, was, base, n)
    ensures forall i: int | i >= n * SECTOR_SIZE :: ByteAt(base, i) == ByteAt(was, i)
  {
  }
}
