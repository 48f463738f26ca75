/** A plain disk: one value per sector, and a multi-sector write. */
module Disk {

  /** The contents of one sector. */
  type Value = seq<bv8>

  /** Writes `x` to the sectors starting at `s`. */
  function Put(d: seq<Value>, s: nat, x: seq<Value>): (r: seq<Value>)
    requires s + |x| <= |d|
    ensures |r| == |d|
  {
    d[..s] + x + d[s + |x|..]
  }

  /** Only the written sectors change. */
  lemma {:induction false} PutSectors(d: seq<Value>, s: nat, x: seq<Value>)
    requires s + |x| <= |d|
    ensures Put(d, s, x)[s..s + |x|] == x
    ensures forall i :: 0 <= i < |d| && !(s <= i < s + |x|) ==> Put(d, s, x)[i] == d[i]
    ensures x == [] ==> Put(d, s, x) == d
  {
  }

  /** The two disks differ at most inside the `n` sectors from `s` on. */
  ghost predicate SameOutside(a: seq<Value>, b: seq<Value>, s: nat, n: nat) {
    |a| == |b| && forall i :: 0 <= i < |a| && !(s <= i < s + n) ==> a[i] == b[i]
  }

  lemma {:induction false} SameAsItself(d: seq<Value>, s: nat, n: nat)
    ensures SameOutside(d, d, s, n)
  {
  }

  lemma {:induction false} SliceOfSlice<T>(d: seq<T>, lo: nat, hi: nat, off: nat, n: nat)
    requires lo + off + n <= hi <= |d|
    ensures d[lo..hi][off..off + n] == d[lo + off..lo + off + n]
  {
    var a, b := d[lo..hi][off..off + n], d[lo + off..lo + off + n];
    assert |a| == |b| && forall i :: 0 <= i < n ==> a[i] == b[i];
  }

  /** A write hides every earlier difference inside its own range. */
  lemma {:induction false} PutHides(a: seq<Value>, b: seq<Value>, s: nat, x: seq<Value>)
    requires SameOutside(a, b, s, |x|) && s + |x| <= |a|
    ensures Put(a, s, x) == Put(b, s, x)
  {
  }

  /** A write that starts at the end of, or inside, the previous one (and reaches past it)
      acts like one longer write. */
  lemma {:induction false} PutMerge(d: seq<Value>, s: nat, x: seq<Value>, t: nat, y: seq<Value>)
    requires s <= t <= s + |x| <= t + |y| <= |d|
    ensures Put(Put(d, s, x), t, y) == Put(d, s, x[..t - s] + y)
  {
  }
}
