/** Write-buffer frames: a status character and the sector value the frame holds.
    '0' is free, 'V' holds pending data, 'I' holds superseded data, 'F' was handed to the FTL. */
module Frames {
  import opened Disk

  datatype Frame = Frame(status: char, value: Value)

  /** Every frame is pending or superseded. */
  predicate Pending(fs: seq<Frame>) {
    forall i :: 0 <= i < |fs| ==> fs[i].status == 'V' || fs[i].status == 'I'
  }

  predicate AllSuperseded(fs: seq<Frame>) {
    forall i :: 0 <= i < |fs| ==> fs[i].status == 'I'
  }

  /** Freshly written frames. */
  function Fresh(x: seq<Value>): (fs: seq<Frame>)
    ensures |fs| == |x| && forall i :: 0 <= i < |x| ==> fs[i] == Frame('V', x[i])
  {
    seq(|x|, i requires 0 <= i < |x| => Frame('V', x[i]))
  }

  /** The values of the 'V' frames, in ring order. */
  function Live(fs: seq<Frame>): seq<Value> {
    if fs == [] then []
    else if fs[0].status == 'V' then [fs[0].value] + Live(fs[1..])
    else Live(fs[1..])
  }

  /** The stored values of the frames, whatever their status. */
  function Raw(fs: seq<Frame>): (x: seq<Value>)
    ensures |x| == |fs| && forall i :: 0 <= i < |fs| ==> x[i] == fs[i].value
  {
    seq(|fs|, i requires 0 <= i < |fs| => fs[i].value)
  }

  function MarkFrame(f: Frame, c: char): Frame {
    if f.status == 'V' then Frame(c, f.value) else f
  }

  /** Marks every 'V' frame with `c`. */
  function Mark(fs: seq<Frame>, c: char): (r: seq<Frame>)
    ensures |r| == |fs|
    ensures forall i :: 0 <= i < |fs| ==> r[i] == MarkFrame(fs[i], c)
  {
    seq(|fs|, i requires 0 <= i < |fs| => MarkFrame(fs[i], c))
  }

  /** Keeps the first `k` 'V' frames and supersedes the others. */
  function KeepFirst(fs: seq<Frame>, k: nat): (r: seq<Frame>)
    ensures |r| == |fs|
    decreases fs
  {
    if fs == [] then []
    else if fs[0].status != 'V' then [fs[0]] + KeepFirst(fs[1..], k)
    else if k > 0 then [fs[0]] + KeepFirst(fs[1..], k - 1)
    else [Frame('I', fs[0].value)] + KeepFirst(fs[1..], 0)
  }

  lemma {:induction false} LiveConcat(a: seq<Frame>, b: seq<Frame>)
    ensures Live(a + b) == Live(a) + Live(b)
  {
    if a == [] {
      assert a + b == b;
    } else {
      LiveConcat(a[1..], b);
      assert (a + b)[1..] == a[1..] + b;
    }
  }

  lemma {:induction false} LiveSnoc(fs: seq<Frame>, i: nat)
    requires i < |fs|
    ensures Live(fs[..i + 1]) == Live(fs[..i]) + (if fs[i].status == 'V' then [fs[i].value] else [])
  {
    LiveConcat(fs[..i], [fs[i]]);
    assert fs[..i + 1] == fs[..i] + [fs[i]];
    assert [fs[i]][1..] == [];
  }

  lemma {:induction false} LiveSplit(fs: seq<Frame>, i: nat)
    requires i <= |fs|
    ensures Live(fs) == Live(fs[..i]) + Live(fs[i..])
  {
    LiveConcat(fs[..i], fs[i..]);
    assert fs == fs[..i] + fs[i..];
  }

  /** A span that ends in a 'V' frame has all its values only at its very end. */
  lemma {:induction false} LiveStrict(fs: seq<Frame>, i: nat)
    requires fs != [] && fs[|fs| - 1].status == 'V' && i <= |fs|
    ensures |Live(fs[..i])| <= |Live(fs)|
    ensures |Live(fs[..i])| == |Live(fs)| <==> i == |fs|
  {
    var k := |fs| - 1;
    assert fs[..|fs|] == fs;
    if i < |fs| {
      LiveSnoc(fs, k);
      LiveSplit(fs[..k], i);
      assert fs[..k][..i] == fs[..i];
    }
  }

  /** The shortest prefix that holds the first `n` values. */
  function Reach(fs: seq<Frame>, n: nat): (i: nat)
    requires n <= |Live(fs)|
    ensures i <= |fs| && |Live(fs[..i])| == n
    ensures n > 0 ==> i > 0 && fs[i - 1].status == 'V'
    decreases fs
  {
    if n == 0 then LiveNone(fs[..0]); 0
    else
      var j := Reach(fs[1..], if fs[0].status == 'V' then n - 1 else n);
      assert fs[..j + 1][1..] == fs[1..][..j];
      j + 1
  }

  /** The values of the frames that are not superseded. */
  function Unsuperseded(fs: seq<Frame>): seq<Value> {
    if fs == [] then []
    else Unsuperseded(fs[..|fs| - 1]) + (if fs[|fs| - 1].status != 'I' then [fs[|fs| - 1].value] else [])
  }

  lemma {:induction false} UnsupersededAll(fs: seq<Frame>)
    requires forall i :: 0 <= i < |fs| ==> fs[i].status != 'I'
    ensures Unsuperseded(fs) == Raw(fs)
  {
    if fs != [] { UnsupersededAll(fs[..|fs| - 1]); }
  }

  lemma {:induction false} LiveBound(fs: seq<Frame>)
    ensures |Live(fs)| <= |fs|
  {
    if fs != [] { LiveBound(fs[1..]); }
  }

  lemma {:induction false} LiveFresh(x: seq<Value>)
    ensures Live(Fresh(x)) == x
  {
    if x != [] {
      LiveFresh(x[1..]);
      assert Fresh(x)[1..] == Fresh(x[1..]);
    }
  }

  /** Superseded frames carry nothing. */
  lemma {:induction false} LiveNone(fs: seq<Frame>)
    requires forall i :: 0 <= i < |fs| ==> fs[i].status != 'V'
    ensures Live(fs) == []
  {
    if fs != [] { LiveNone(fs[1..]); }
  }

  lemma {:induction false} NoneLive(fs: seq<Frame>)
    requires Pending(fs) && Live(fs) == []
    ensures AllSuperseded(fs)
  {
    if fs != [] { NoneLive(fs[1..]); }
  }

  /** Frame by frame: a 'V' frame is kept when fewer than `k` others come before it. */
  lemma {:induction false} KeepFirstAt(fs: seq<Frame>, k: nat, j: nat)
    requires j < |fs|
    ensures KeepFirst(fs, k)[j] ==
            if fs[j].status == 'V' && |Live(fs[..j])| >= k then Frame('I', fs[j].value) else fs[j]
    decreases fs
  {
    if j > 0 {
      KeepFirstAt(fs[1..], if fs[0].status != 'V' || k == 0 then k else k - 1, j - 1);
      assert fs[..j][1..] == fs[1..][..j - 1];
    }
  }

  /** Trimming the rear of a span keeps exactly the leading values. */
  lemma {:induction false} LiveKeepFirst(fs: seq<Frame>, k: nat)
    requires k <= |Live(fs)| && Pending(fs)
    ensures Live(KeepFirst(fs, k)) == Live(fs)[..k]
    ensures Pending(KeepFirst(fs, k)) && Raw(KeepFirst(fs, k)) == Raw(fs)
    decreases fs
  {
    if fs != [] {
      var rest := if fs[0].status != 'V' || k == 0 then k else k - 1;
      LiveKeepFirst(fs[1..], rest);
      var r := KeepFirst(fs, k);
      assert r[1..] == KeepFirst(fs[1..], rest);
      forall i | 0 <= i < |fs| ensures r[i].value == fs[i].value && (r[i].status == 'V' || r[i].status == 'I') {
        if i > 0 {
          assert r[i] == r[1..][i - 1];
          assert Raw(KeepFirst(fs[1..], rest))[i - 1] == Raw(fs[1..])[i - 1];
        }
      }
    }
  }
}
