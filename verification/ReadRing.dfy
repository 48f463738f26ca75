/** The read buffer: a ring that reads fill at the FTL pointer and the host drains at the SATA pointer. */
module ReadRings {
  import opened Disk
  import opened WriteRings

  /** The ring holds `xs` from position `at` on. */
  predicate Stored(at: nat, xs: seq<Value>, vals: seq<Value>) {
    at < |vals| && |xs| <= |vals| && forall k :: 0 <= k < |xs| ==> vals[Wrap(|vals|, at + k)] == xs[k]
  }

  lemma {:induction false} StoredPush(at: nat, xs: seq<Value>, vals: seq<Value>, x: Value)
    requires Stored(at, xs, vals) && |xs| < |vals|
    ensures Stored(at, xs + [x], vals[Wrap(|vals|, at + |xs|) := x])
  {
  }

  lemma {:induction false} StoredPop(at: nat, xs: seq<Value>, vals: seq<Value>)
    requires Stored(at, xs, vals) && xs != []
    ensures vals[at] == xs[0] && Stored(Wrap(|vals|, at + 1), xs[1..], vals)
  {
  }

  class ReadRing {
    const size: nat
    const data: array<Value>
    /** ftl_read_ptr, sata_read_ptr and read_limit_ptr, as frame indices. */
    var ftl: nat
    var sata: nat
    var limit: nat
    /** empty_read_buffer_frame */
    var empty: int

    /** The sectors read and not yet delivered, oldest first. */
    ghost var content: seq<Value>
    /** Frames set aside for queued reads that hold no data yet. */
    ghost var reserved: int

    ghost predicate Valid()
      reads this, data
    {
      && size > 0 && data.Length == size
      && sata < size && limit < size && |content| <= size
      && ftl == Wrap(size, sata + |content|)
      && empty == size - |content| - reserved
      && Stored(sata, content, data[..])
    }

    constructor (n: nat)
      requires n > 0
      ensures Valid() && size == n && content == [] && reserved == 0 && limit == ftl
      ensures fresh(data)
    {
      size := n;
      data := new Value[n](i => []);
      ftl, sata, limit, empty := 0, 0, 0, n;
      content, reserved := [], 0;
    }

    lemma {:induction false} FtlAt()
      requires Valid()
      ensures ftl == Wrap(size, sata + |content|)
    {
    }

    /** A read enters the queue. */
    method Reserve(n: nat)
      requires Valid()
      modifies this`empty, this`reserved
      ensures Valid() && reserved == old(reserved) + n
    {
      empty := empty - n;
      reserved := reserved + n;
    }

    /** Stores one sector at the FTL pointer and advances it. */
    method PushSector(x: Value)
      requires Valid() && |content| < size
      modifies this`ftl, this`content, this`reserved, data
      ensures Valid() && content == old(content) + [x] && reserved == old(reserved) - 1
    {
      StoredPush(sata, content, data[..], x);
      data[ftl] := x;
      assert data[..] == old(data[..])[old(ftl) := x];
      content, reserved := content + [x], reserved - 1;
      ftl := ftl + 1;
      if ftl == size { ftl := 0; }
    }

    /** The data of a read arrives: INCREASE_RB_FTL_POINTER over the sectors of `x`. */
    method IncreaseFtl(x: seq<Value>)
      requires Valid() && |content| + |x| <= size
      modifies this`ftl, this`content, this`reserved, data
      ensures Valid() && content == old(content) + x && reserved == old(reserved) - |x|
    {
      hide Stored;
      var i := 0;
      while i < |x|
        invariant 0 <= i <= |x|
        invariant Valid() && content == old(content) + x[..i] && reserved == old(reserved) - i
      {
        PushSector(x[i]);
        i := i + 1;
      }
      assert x[..i] == x;
    }

    /** INCREASE_RB_LIMIT_POINTER. */
    method IncreaseLimit()
      requires Valid()
      modifies this`limit
      ensures Valid() && limit == ftl
    {
      hide Stored;
      limit := if limit + 1 == size then 0 else limit + 1;
      while limit != ftl
        invariant Valid()
        decreases Dist(size, limit, ftl)
      {
        limit := if limit + 1 == size then 0 else limit + 1;
      }
    }

    /** READ_DATA_FROM_BUFFER_TO_HOST with INCREASE_RB_SATA_POINTER: hands `n` sectors to the host. */
    method IncreaseSata(n: nat) returns (x: seq<Value>)
      requires Valid() && n <= |content|
      modifies this`sata, this`empty, this`content
      ensures Valid() && x == old(content)[..n] && content == old(content)[n..]
      ensures sata == Wrap(size, old(sata) + n)
    {
      hide Stored;
      x := [];
      var i := 0;
      while i < n
        invariant 0 <= i <= n
        invariant Valid() && x == old(content)[..i] && content == old(content)[i..]
        invariant sata == Wrap(size, old(sata) + i)
      {
        StoredPop(sata, content, data[..]);
        empty := empty + 1;
        x := x + [data[sata]];
        content := content[1..];
        sata := sata + 1;
        if sata == size { sata := 0; }
        i := i + 1;
      }
    }
  }
}
