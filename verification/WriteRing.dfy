/** The write buffer: a ring of frames with one status character each and three chasing pointers. */
module WriteRings {
  import opened Disk
  import opened Frames

  /** Position `p` on a ring of `size` frames, for `p` less than a lap ahead. */
  function Wrap(size: nat, p: nat): (q: nat)
    ensures p < 2 * size ==> q < size
  {
    if p < size then p else p - size
  }

  /** Steps from position `from` forward to position `to`. */
  function Dist(size: nat, from: nat, to: nat): (d: nat)
    requires from < size && to < size
    ensures d < size && Wrap(size, from + d) == to
  {
    if from <= to then to - from else to - from + size
  }

  /** Frame `p` holds its place in the window that starts at `limit`, or is free. */
  predicate FrameOk(limit: nat, win: seq<Frame>, st: seq<char>, vals: seq<Value>, p: nat)
    requires limit < |st| == |vals| && p < |st|
  {
    var d := Dist(|st|, limit, p);
    if d < |win| then win[d] == Frame(st[p], vals[p]) else st[p] == '0'
  }

  /** The ring holds exactly the window `win`, and every other frame is free. */
  predicate Holds(limit: nat, win: seq<Frame>, st: seq<char>, vals: seq<Value>) {
    && limit < |st| == |vals| && |win| <= |st|
    && (forall p :: 0 <= p < |st| ==> FrameOk(limit, win, st, vals, p))
    && (forall k :: 0 <= k < |win| ==> win[k].status != '0')
  }

  lemma {:induction false} HoldsAt(limit: nat, win: seq<Frame>, st: seq<char>, vals: seq<Value>, k: nat)
    requires Holds(limit, win, st, vals) && k < |win|
    ensures var p := Wrap(|st|, limit + k); win[k] == Frame(st[p], vals[p])
  {
    var p := Wrap(|st|, limit + k);
    assert FrameOk(limit, win, st, vals, p);
  }

  lemma {:induction false} FreeAt(limit: nat, win: seq<Frame>, st: seq<char>, vals: seq<Value>, k: nat)
    requires Holds(limit, win, st, vals) && |win| <= k < |st|
    ensures st[Wrap(|st|, limit + k)] == '0'
  {
    var p := Wrap(|st|, limit + k);
    assert FrameOk(limit, win, st, vals, p);
  }

  lemma {:induction false} HoldsPush(limit: nat, win: seq<Frame>, st: seq<char>, vals: seq<Value>, x: Value)
    requires Holds(limit, win, st, vals) && |win| < |st|
    ensures var p := Wrap(|st|, limit + |win|);
            Holds(limit, win + [Frame('V', x)], st[p := 'V'], vals[p := x])
  {
    var p := Wrap(|st|, limit + |win|);
    var w, s, v := win + [Frame('V', x)], st[p := 'V'], vals[p := x];
    forall q | 0 <= q < |s| ensures FrameOk(limit, w, s, v, q) {
      assert FrameOk(limit, win, st, vals, q);
    }
  }

  lemma {:induction false} HoldsSet(limit: nat, win: seq<Frame>, st: seq<char>, vals: seq<Value>, k: nat, c: char)
    requires Holds(limit, win, st, vals) && k < |win| && c != '0'
    ensures Holds(limit, win[k := Frame(c, win[k].value)], st[Wrap(|st|, limit + k) := c], vals)
  {
    var p := Wrap(|st|, limit + k);
    var w, s := win[k := Frame(c, win[k].value)], st[p := c];
    forall q | 0 <= q < |s| ensures FrameOk(limit, w, s, vals, q) {
      assert FrameOk(limit, win, st, vals, q);
    }
  }

  lemma {:induction false} HoldsPop(limit: nat, win: seq<Frame>, st: seq<char>, vals: seq<Value>)
    requires Holds(limit, win, st, vals) && win != []
    ensures Holds(Wrap(|st|, limit + 1), win[1..], st[limit := '0'], vals)
  {
    var l, w, s := Wrap(|st|, limit + 1), win[1..], st[limit := '0'];
    forall q | 0 <= q < |s| ensures FrameOk(l, w, s, vals, q) {
      assert FrameOk(limit, win, st, vals, q);
    }
  }

  /** The frames from position `buf` on. */
  predicate FramesFrom(st: seq<char>, vals: seq<Value>, buf: nat, fs: seq<Frame>) {
    && buf < |st| == |vals| && |fs| <= |st|
    && forall j :: 0 <= j < |fs| ==> fs[j] == Frame(st[Wrap(|st|, buf + j)], vals[Wrap(|st|, buf + j)])
  }

  /** The values stored from position `buf` on. */
  predicate ValuesFrom(vals: seq<Value>, buf: nat, xs: seq<Value>) {
    && buf < |vals| && |xs| <= |vals|
    && forall j :: 0 <= j < |xs| ==> xs[j] == vals[Wrap(|vals|, buf + j)]
  }

  lemma {:induction false} SpanValues(limit: nat, win: seq<Frame>, st: seq<char>, vals: seq<Value>, at: nat, len: nat)
    requires Holds(limit, win, st, vals) && at + len <= |win| && len > 0
    ensures ValuesFrom(vals, Wrap(|st|, limit + at), Raw(win[at..at + len]))
  {
    var buf := Wrap(|st|, limit + at);
    var xs := Raw(win[at..at + len]);
    forall j | 0 <= j < len ensures xs[j] == vals[Wrap(|vals|, buf + j)] {
      HoldsAt(limit, win, st, vals, at + j);
      assert win[at..at + len][j] == win[at + j];
    }
  }

  /** Frames that were `len - j` behind the end of a span are that far behind the limit pointer once it
      has moved there. */
  lemma {:induction false} RingBehind(size: nat, limit0: nat, at: nat, len: nat, rest: nat, limit1: nat, j: nat)
    requires limit0 < size && limit1 < size && at + len + rest <= size && j < len
    requires Wrap(size, limit0 + at + len + rest) == Wrap(size, limit1 + rest)
    ensures Wrap(size, Wrap(size, limit0 + at) + j) == Wrap(size, limit1 + (size - (len - j)))
  {
  }

  /** The frames of a span, freed. */
  function Freed(fs: seq<Frame>): (r: seq<Frame>)
    ensures |r| == |fs| && forall i :: 0 <= i < |fs| ==> r[i] == Frame('0', fs[i].value)
  {
    seq(|fs|, i requires 0 <= i < |fs| => Frame('0', fs[i].value))
  }

  /** Once the limit pointer has moved to the end of a span, its frames are free and hold the same values. */
  lemma {:induction false} FreedFrames(limit0: nat, at: nat, span: seq<Frame>, limit: nat, win: seq<Frame>, st: seq<char>, vals: seq<Value>)
    requires Holds(limit, win, st, vals) && limit0 < |st| && span != [] && at + |span| + |win| <= |st|
    requires Wrap(|st|, limit0 + at + |span| + |win|) == Wrap(|st|, limit + |win|)
    requires ValuesFrom(vals, Wrap(|st|, limit0 + at), Raw(span))
    ensures FramesFrom(st, vals, Wrap(|st|, limit0 + at), Freed(span))
  {
    var buf := Wrap(|st|, limit0 + at);
    var fs := Freed(span);
    forall j | 0 <= j < |fs| ensures fs[j] == Frame(st[Wrap(|st|, buf + j)], vals[Wrap(|st|, buf + j)]) {
      RingBehind(|st|, limit0, at, |span|, |win|, limit, j);
      FreeAt(limit, win, st, vals, |st| - (|span| - j));
      assert Raw(span)[j] == span[j].value;
    }
  }

  // ---------------------------------------------------------------------------------------------
  // Frame conservation

  /** Number of free frames. */
  function FreeCount(st: seq<char>): nat {
    if st == [] then 0 else (if st[0] == '0' then 1 else 0) + FreeCount(st[1..])
  }

  lemma {:induction false} FreeCountConcat(a: seq<char>, b: seq<char>)
    ensures FreeCount(a + b) == FreeCount(a) + FreeCount(b)
  {
    if a == [] {
      assert a + b == b;
    } else {
      FreeCountConcat(a[1..], b);
      assert (a + b)[1..] == a[1..] + b;
    }
  }

  lemma {:induction false} FreeCountAll(a: seq<char>, free: bool)
    requires forall i :: 0 <= i < |a| ==> (a[i] == '0') == free
    ensures FreeCount(a) == if free then |a| else 0
  {
    if a != [] { FreeCountAll(a[1..], free); }
  }

  lemma {:induction false} FreeCountRange(st: seq<char>, a: nat, b: nat, free: bool)
    requires a <= b <= |st|
    requires forall p :: 0 <= p < |st| ==> (st[p] == '0') == ((a <= p < b) == free)
    ensures FreeCount(st) == if free then b - a else |st| - (b - a)
  {
    hide FreeCount;
    FreeCountAll(st[..a], !free);
    FreeCountAll(st[a..b], free);
    FreeCountAll(st[b..], !free);
    FreeCountConcat(st[..a], st[a..b]);
    FreeCountConcat(st[..a] + st[a..b], st[b..]);
    assert st == st[..a] + st[a..b] + st[b..];
  }

  /** Exactly the frames outside the window are free, wherever the window starts and however it wraps. */
  lemma {:induction false} FreeFrames(limit: nat, win: seq<Frame>, st: seq<char>, vals: seq<Value>)
    requires Holds(limit, win, st, vals)
    ensures FreeCount(st) == |st| - |win|
  {
    hide FreeCount;
    forall p | 0 <= p < |st| ensures (st[p] == '0') == (Dist(|st|, limit, p) >= |win|) {
      assert FrameOk(limit, win, st, vals, p);
    }
    if limit + |win| > |st| {
      FreeCountRange(st, limit + |win| - |st|, limit, true);
    } else {
      FreeCountRange(st, limit, limit + |win|, false);
    }
  }

  // ---------------------------------------------------------------------------------------------
  // The buffer

  class WriteRing {
    const size: nat
    const valid: array<char>
    const data: array<Value>
    /** ftl_write_ptr, sata_write_ptr and write_limit_ptr, as frame indices. */
    var ftl: nat
    var sata: nat
    var limit: nat
    /** empty_write_buffer_frame */
    var empty: int

    /** The frames from the limit pointer to the SATA pointer, oldest first. */
    ghost var win: seq<Frame>
    /** How many of them the FTL pointer has passed. */
    ghost var handed: nat

    ghost predicate Valid()
      reads this, valid, data
    {
      && size > 0 && valid.Length == size && data.Length == size
      && limit < size && |win| <= size && handed <= |win|
      && ftl == Wrap(size, limit + handed)
      && sata == Wrap(size, limit + |win|)
      && empty == size - |win|
      && Holds(limit, win, valid[..], data[..])
    }

    /** INIT_WB_VALID_ARRAY and the write half of INIT_IO_BUFFER. */
    constructor (n: nat)
      requires n > 0
      ensures Valid() && size == n && win == [] && handed == 0
      ensures fresh(valid) && fresh(data)
    {
      size := n;
      valid := new char[n](i => '0');
      data := new Value[n](i => []);
      ftl, sata, limit, empty := 0, 0, 0, n;
      win, handed := [], 0;
    }

    /** empty_write_buffer_frame is the number of '0' frames. */
    lemma {:induction false} EmptyIsFree()
      requires Valid()
      ensures empty == FreeCount(valid[..])
    {
      FreeFrames(limit, win, valid[..], data[..]);
    }

    /** GET_WB_VALID_ARRAY_ENTRY at the k-th frame of the window. */
    lemma {:induction false} StatusAt(k: nat)
      requires Valid() && k < |win|
      ensures var p := Wrap(size, limit + k); valid[p] == win[k].status && data[p] == win[k].value
    {
      HoldsAt(limit, win, valid[..], data[..], k);
    }

    /** UPDATE_WB_VALID_ARRAY_ENTRY at the k-th frame of the window. */
    method SetStatus(p: nat, c: char, ghost k: nat)
      requires Valid() && k < |win| && p == Wrap(size, limit + k) && c != '0'
      modifies valid, this`win
      ensures Valid() && win == old(win)[k := Frame(c, old(win)[k].value)]
      ensures valid[..] == old(valid[..])[p := c]
    {
      HoldsSet(limit, win, valid[..], data[..], k, c);
      valid[p] := c;
      win := win[k := Frame(c, win[k].value)];
      assert valid[..] == old(valid[..])[p := c];
    }

    /** One step of INCREASE_WB_SATA_POINTER. */
    method PushFrame(x: Value)
      requires Valid() && empty > 0
      modifies this`sata, this`empty, this`win, valid, data
      ensures Valid() && win == old(win) + [Frame('V', x)]
    {
      HoldsPush(limit, win, valid[..], data[..], x);
      empty := empty - 1;
      valid[sata] := 'V';
      data[sata] := x;
      assert valid[..] == old(valid[..])[old(sata) := 'V'];
      assert data[..] == old(data[..])[old(sata) := x];
      win := win + [Frame('V', x)];
      sata := sata + 1;
      if sata == size { sata := 0; }
    }

    /** WRITE_DATA_TO_BUFFER with INCREASE_WB_SATA_POINTER: stores the host's sectors. */
    method IncreaseSata(x: seq<Value>)
      requires Valid() && |x| <= empty
      modifies this`sata, this`empty, this`win, valid, data
      ensures Valid() && win == old(win) + Fresh(x)
    {
      var i := 0;
      while i < |x|
        invariant 0 <= i <= |x| && |x| - i <= empty
        invariant Valid() && win == old(win) + Fresh(x[..i])
      {
        PushFrame(x[i]);
        assert Fresh(x[..i + 1]) == Fresh(x[..i]) + [Frame('V', x[i])];
        i := i + 1;
      }
      assert x[..i] == x;
    }

    /** One step of INCREASE_WB_FTL_POINTER: the pointer passes a frame and takes it if it is pending. */
    method HandFrame() returns (x: seq<Value>)
      requires Valid() && handed < |win|
      modifies this`ftl, this`win, this`handed, valid
      ensures Valid() && handed == old(handed) + 1
      ensures var f := old(win)[old(handed)];
              x == (if f.status == 'V' then [f.value] else []) &&
              win == old(win)[old(handed) := Frame(if f.status == 'V' then 'F' else f.status, f.value)]
    {
      hide Holds;
      StatusAt(handed);
      x := [];
      if valid[ftl] == 'V' {
        x := [data[ftl]];
        SetStatus(ftl, 'F', handed);
      }
      ftl := ftl + 1;
      if ftl == size { ftl := 0; }
      handed := handed + 1;
    }

    /** INCREASE_WB_FTL_POINTER: hands `n` pending frames to the FTL, skipping superseded ones. The scan
        stops at the end of the `len` frames that hold exactly those `n`. Returns their values. */
    method IncreaseFtl(n: nat, ghost len: nat) returns (x: seq<Value>)
      requires Valid() && handed + len <= |win|
      requires |Live(win[handed..handed + len])| == n
      requires len > 0 ==> win[handed + len - 1].status == 'V'
      modifies this`ftl, this`win, this`handed, valid
      ensures Valid() && handed == old(handed) + len
      ensures |win| == |old(win)| && win[handed..] == old(win)[handed..]
      ensures x == Live(old(win)[old(handed)..handed])
    {
      hide Holds, Live, Valid;
      ghost var w0, h0 := win, handed;
      ghost var span := win[handed..handed + len];
      if len == 0 { LiveNone(span); }
      LiveNone(span[..0]);
      var count := 0;
      x := [];
      while count != n
        invariant Valid() && h0 <= handed <= h0 + len && count == |x|
        invariant |win| == |w0| && forall i :: handed <= i < |win| ==> win[i] == w0[i]
        invariant x == Live(span[..handed - h0])
        decreases h0 + len - handed
      {
        if len > 0 { LiveStrict(span, handed - h0); }
        LiveSnoc(span, handed - h0);
        assert win[handed] == span[handed - h0];
        var got := HandFrame();
        x := x + got;
        count := count + |got|;
      }
      if len > 0 { LiveStrict(span, handed - h0); }
      assert span[..len] == span;
    }

    /** INCREASE_WB_LIMIT_POINTER: frees every frame the FTL pointer has passed, also when that is the
        whole ring and both pointers already coincide. */
    method IncreaseLimit()
      requires Valid() && handed > 0
      modifies this`limit, this`empty, this`win, this`handed, valid
      ensures Valid() && handed == 0 && win == old(win)[old(handed)..]
      ensures limit == Wrap(size, old(limit) + old(handed))
    {
      hide Holds;
      ghost var w0 := win;
      ghost var l0, n := limit, handed;
      FreeFrame();
      ghost var i := 1;
      while limit != ftl
        invariant Valid() && 1 <= i <= n && handed == n - i && win == w0[i..]
        invariant limit == Wrap(size, l0 + i)
        decreases n - i
      {
        FreeFrame();
        i := i + 1;
      }
    }

    /** One round of INCREASE_WB_LIMIT_POINTER. */
    method FreeFrame()
      requires Valid() && handed > 0
      modifies this`limit, this`empty, this`win, this`handed, valid
      ensures Valid() && handed == old(handed) - 1 && win == old(win)[1..]
      ensures limit == Wrap(size, old(limit) + 1)
    {
      HoldsPop(limit, win, valid[..], data[..]);
      hide Holds;
      valid[limit] := '0';
      assert valid[..] == old(valid[..])[old(limit) := '0'];
      limit := limit + 1;
      if limit == size { limit := 0; }
      empty := empty + 1;
      win, handed := win[1..], handed - 1;
    }

    /** The frame after `p` on the ring. */
    function Next(p: nat): (q: nat)
      requires p < size
      ensures q < size
      ensures forall k: nat :: k < 2 * size - 1 && p == Wrap(size, k) ==> q == Wrap(size, k + 1)
    {
      if p + 1 == size then 0 else p + 1
    }

    lemma {:induction false} Bounds()
      requires Valid()
      ensures size > 0 && limit < size && |win| <= size && valid.Length == data.Length == size
    {
    }

    /** One step of UPDATE_WB_VALID_ARRAY: a pending frame is superseded and counted. */
    method SupersedeFrame(p: nat, ghost k: nat) returns (c: nat)
      requires Valid() && k < |win| && p == Wrap(size, limit + k)
      modifies valid, this`win
      ensures Valid() && c == (if old(win)[k].status == 'V' then 1 else 0)
      ensures win == old(win)[k := MarkFrame(old(win)[k], 'I')]
    {
      hide Holds;
      StatusAt(k);
      c := 0;
      if valid[p] == 'V' {
        SetStatus(p, 'I', k);
        c := 1;
      }
    }

    /** UPDATE_WB_VALID_ARRAY with 'I': supersedes the `n` pending frames of the write whose frames are
        win[at..at + len]. The scan stops inside those frames. */
    method Supersede(buf: nat, n: nat, ghost at: nat, ghost len: nat)
      requires Valid() && at + len <= |win| && len > 0
      requires buf == Wrap(size, limit + at)
      requires |Live(win[at..at + len])| == n && win[at + len - 1].status == 'V'
      modifies valid, this`win
      ensures Valid() && win == old(win)[..at] + Mark(old(win)[at..at + len], 'I') + old(win)[at + len..]
    {
      hide Holds, Live, Valid, MarkFrame;
      Bounds();
      ghost var w0 := win;
      ghost var span := win[at..at + len];
      LiveNone(span[..0]);
      var p, count := buf, 0;
      ghost var i := 0;
      while count != n
        invariant Valid() && 0 <= i <= len && count == |Live(span[..i])|
        invariant p == Wrap(size, limit + at + i)
        invariant |win| == |w0|
        invariant forall j :: 0 <= j < |win| ==> win[j] == if at <= j < at + i then MarkFrame(w0[j], 'I') else w0[j]
        decreases len - i
      {
        LiveStrict(span, i);
        LiveSnoc(span, i);
        var c := SupersedeFrame(p, at + i);
        count := count + c;
        p := Next(p);
        i := i + 1;
      }
      LiveStrict(span, i);
      Spliced(w0, win, at, len, Mark(span, 'I'));
    }

    /** The skipping scan of UPDATE_WB_VALID_ARRAY_PARTIAL: passes `n` frames that are not superseded. */
    method Skip(buf: nat, n: nat, ghost at: nat, ghost span: seq<Frame>) returns (p: nat, ghost i: nat)
      requires Valid() && at + |span| <= |win| && span == win[at..at + |span|]
      requires buf == Wrap(size, limit + at)
      requires Pending(span) && n <= |Live(span)|
      ensures i <= |span| && |Live(span[..i])| == n && p == Wrap(size, limit + at + i)
    {
      hide Holds, Live, Valid;
      Bounds();
      LiveNone(span[..0]);
      p, i := buf, 0;
      var count := 0;
      while count != n
        invariant 0 <= i <= |span| && count == |Live(span[..i])| <= n && span[..|span|] == span
        invariant p == Wrap(size, limit + at + i)
        decreases |span| - i
      {
        LiveSnoc(span, i);
        StatusAt(at + i);
        assert win[at + i] == span[i];
        if valid[p] != 'I' { count := count + 1; }
        p := Next(p);
        i := i + 1;
      }
    }

    /** One step of UPDATE_WB_VALID_ARRAY_PARTIAL: a frame that is not superseded yet becomes so. */
    method SupersedeRest(p: nat, ghost k: nat) returns (c: nat)
      requires Valid() && k < |win| && p == Wrap(size, limit + k)
      requires win[k].status == 'V' || win[k].status == 'I'
      modifies valid, this`win
      ensures Valid() && c == (if old(win)[k].status == 'V' then 1 else 0)
      ensures win == old(win)[k := MarkFrame(old(win)[k], 'I')]
    {
      hide Holds;
      StatusAt(k);
      c := 0;
      if valid[p] != 'I' {
        SetStatus(p, 'I', k);
        c := 1;
      }
    }

    /** UPDATE_WB_VALID_ARRAY_PARTIAL in mode 1 with 'I': keeps the first `length - n` sectors of the
        write whose frames are win[at..at + len] and supersedes its last `n`. Both scans stop inside. */
    method SupersedeRear(buf: nat, length: nat, n: nat, ghost at: nat, ghost len: nat)
      requires Valid() && at + len <= |win| && len > 0 && 0 < n <= length
      requires buf == Wrap(size, limit + at)
      requires Pending(win[at..at + len]) && |Live(win[at..at + len])| == length
      requires win[at + len - 1].status == 'V'
      modifies valid, this`win
      ensures Valid()
      ensures win == old(win)[..at] + KeepFirst(old(win)[at..at + len], length - n) + old(win)[at + len..]
    {
      hide Holds, Live, Valid, KeepFirst;
      Bounds();
      ghost var w0 := win;
      ghost var span := win[at..at + len];
      var p, i := Skip(buf, length - n, at, span);
      var count := 0;
      ghost var kept := KeepFirst(span, length - n);
      assert forall j :: 0 <= j < i ==> kept[j] == span[j] by {
        forall j | 0 <= j < i ensures kept[j] == span[j] { KeptBefore(span, length - n, i, j); }
      }
      while count != n
        invariant Valid() && 0 <= i <= len && length - n + count == |Live(span[..i])|
        invariant p == Wrap(size, limit + at + i)
        invariant |win| == |w0|
        invariant forall j :: 0 <= j < |win| ==> win[j] == if at <= j < at + i then kept[j - at] else w0[j]
        decreases len - i
      {
        LiveStrict(span, i);
        LiveSnoc(span, i);
        KeepFirstAt(span, length - n, i);
        assert win[at + i] == span[i];
        var c := SupersedeRest(p, at + i);
        count := count + c;
        p := Next(p);
        i := i + 1;
      }
      LiveStrict(span, i);
      Spliced(w0, win, at, len, kept);
    }
  }

  /** A window in which only the frames from `at` on were replaced. */
  lemma {:induction false} Spliced(w0: seq<Frame>, w: seq<Frame>, at: nat, len: nat, part: seq<Frame>)
    requires |w| == |w0| && at + len <= |w| && |part| == len
    requires forall j :: 0 <= j < |w| ==> w[j] == if at <= j < at + len then part[j - at] else w0[j]
    ensures w == w0[..at] + part + w0[at + len..]
  {
  }

  lemma {:induction false} KeptBefore(span: seq<Frame>, k: nat, i: nat, j: nat)
    requires j < i <= |span| && |Live(span[..i])| == k
    ensures KeepFirst(span, k)[j] == span[j]
  {
    KeepFirstAt(span, k, j);
    LiveSnoc(span, j);
    LiveSplit(span[..i], j + 1);
    assert span[..i][..j + 1] == span[..j + 1];
  }
}
