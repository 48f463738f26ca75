/** Cipher block chaining, as AES_cbc_encrypt does it: any number of bytes, in place or not. */
module AesCbc {
  import opened Words
  import opened AesTables
  import opened AesKeys
  import opened AesBlocks

  /** The length rounded up to whole blocks. */
  function RoundUp(n: nat): (m: nat)
    ensures m % 16 == 0 && n <= m < n + 16
  {
    if n == 0 then 0 else if n < 16 then 16 else 16 + RoundUp(n - 16)
  }

  lemma {:induction false} RoundUpPlus(done: nat, n: nat)
    requires done % 16 == 0
    ensures RoundUp(done + n) == done + RoundUp(n)
  {
    if done > 0 {
      RoundUpPlus(done - 16, n);
    }
  }

  /** a added byte by byte to the start of b. */
  function XorSeq(a: seq<Byte>, b: seq<Byte>): (r: seq<Byte>)
    requires |a| <= |b|
    ensures |r| == |a|
  {
    seq(|a|, i requires 0 <= i < |a| => Add(a[i], b[i]))
  }

  /** A block, or the partial last block, added to the chaining value. */
  function Chained(p: seq<Byte>, iv: seq<Byte>): (r: seq<Byte>)
    requires |p| <= 16 && |iv| == 16
    ensures |r| == 16
  {
    XorSeq(p, iv) + iv[|p|..]
  }

  /** NIST SP 800-38A section 6.2, with a partial last block encrypted as a whole one. */
  function CbcEncrypt(t: SBox, k: Schedule, iv: seq<Byte>, p: seq<Byte>): (c: seq<Byte>)
    requires k.Valid() && |iv| == 16
    ensures |c| == RoundUp(|p|)
    decreases |p|
  {
    if |p| == 0 then []
    else if |p| < 16 then EncryptBytes(t, k, Chained(p, iv))
    else
      var block := EncryptBytes(t, k, Chained(p[..16], iv));
      block + CbcEncrypt(t, k, block, p[16..])
  }

  function CbcDecrypt(t: SBox, k: Schedule, iv: seq<Byte>, c: seq<Byte>, length: nat): (p: seq<Byte>)
    requires k.Valid() && |iv| == 16 && |c| == RoundUp(length)
    ensures |p| == length
    decreases length
  {
    if length == 0 then []
    else if length < 16 then XorSeq(DecryptBytes(t, k, c)[..length], iv)
    else XorSeq(DecryptBytes(t, k, c[..16]), iv) + CbcDecrypt(t, k, c[..16], c[16..], length - 16)
  }

  /** The chaining value that follows the cipher text c: its last block. */
  function NextIv(iv: seq<Byte>, c: seq<Byte>): (r: seq<Byte>)
    requires |iv| == 16
    ensures |r| == 16
  {
    if |c| < 16 then iv else c[|c| - 16..]
  }

  lemma {:induction false} ChainedTwice(p: seq<Byte>, iv: seq<Byte>)
    requires |p| <= 16 && |iv| == 16
    ensures XorSeq(Chained(p, iv)[..|p|], iv) == p
  {
  }

  /** Decrypting what was encrypted from the same chaining value gives the bytes back, for every length. */
  lemma {:induction false} RoundTrip(t: SBox, e: Schedule, d: Schedule, iv: seq<Byte>, p: seq<Byte>)
    requires Inverse(t, e, d) && |iv| == 16
    ensures CbcDecrypt(t, d, iv, CbcEncrypt(t, e, iv, p), |p|) == p
    decreases |p|
  {
    hide EncryptBytes, DecryptBytes, Chained, XorSeq, Undoes, AesCipher.DecryptSchedule;
    if |p| == 0 {
    } else if |p| < 16 {
      ChainedTwice(p, iv);
      DecryptUndoesEncrypt(t, e, d, Chained(p, iv));
    } else {
      var x := Chained(p[..16], iv);
      var block := EncryptBytes(t, e, x);
      var rest := CbcEncrypt(t, e, block, p[16..]);
      DecryptUndoesEncrypt(t, e, d, x);
      ChainedTwice(p[..16], iv);
      assert x[..16] == x;
      assert (block + rest)[..16] == block && (block + rest)[16..] == rest;
      RoundTrip(t, e, d, block, p[16..]);
    }
  }

  lemma {:induction false} FirstBlock(t: SBox, k: Schedule, iv: seq<Byte>, p: seq<Byte>, q: seq<Byte>)
    requires k.Valid() && |iv| == 16 && 16 <= |p|
    ensures var block := EncryptBytes(t, k, Chained(p[..16], iv));
            && CbcEncrypt(t, k, iv, p) == block + CbcEncrypt(t, k, block, p[16..])
            && CbcEncrypt(t, k, iv, p + q) == block + CbcEncrypt(t, k, block, p[16..] + q)
  {
    hide EncryptBytes, Chained;
    assert (p + q)[..16] == p[..16] && (p + q)[16..] == p[16..] + q;
  }

  lemma {:induction false} NextIvTail(iv: seq<Byte>, block: seq<Byte>, rest: seq<Byte>)
    requires |iv| == 16 && |block| == 16 && |rest| % 16 == 0
    ensures NextIv(iv, block + rest) == NextIv(block, rest)
  {
  }

  /** Encrypting whole blocks and then more bytes with the carried chaining value is encrypting them all. */
  lemma {:induction false} EncryptAppend(t: SBox, k: Schedule, iv: seq<Byte>, p: seq<Byte>, q: seq<Byte>)
    requires k.Valid() && |iv| == 16 && |p| % 16 == 0
    ensures var c := CbcEncrypt(t, k, iv, p);
            CbcEncrypt(t, k, iv, p + q) == c + CbcEncrypt(t, k, NextIv(iv, c), q)
    decreases |p|
  {
    hide EncryptBytes, Chained, CbcEncrypt;
    if |p| == 0 {
      assert p + q == q;
      assert CbcEncrypt(t, k, iv, p) == [];
      assert CbcEncrypt(t, k, iv, p) + CbcEncrypt(t, k, iv, q) == CbcEncrypt(t, k, iv, q);
    } else {
      FirstBlock(t, k, iv, p, q);
      var block := EncryptBytes(t, k, Chained(p[..16], iv));
      var rest := CbcEncrypt(t, k, block, p[16..]);
      EncryptAppend(t, k, block, p[16..], q);
      NextIvTail(iv, block, rest);
      var more := CbcEncrypt(t, k, NextIv(block, rest), q);
      assert block + (rest + more) == block + rest + more;
    }
  }

  lemma {:induction false} FirstBlockBack(t: SBox, k: Schedule, iv: seq<Byte>, c: seq<Byte>, b: seq<Byte>, m: nat, n: nat)
    requires k.Valid() && |iv| == 16 && 16 <= |c| && |c| == RoundUp(m) && 16 <= m && |c + b| == RoundUp(m + n)
    ensures RoundUp(m - 16) == |c| - 16 && RoundUp(m + n - 16) == |c| + |b| - 16
    ensures var x := XorSeq(DecryptBytes(t, k, c[..16]), iv);
            && CbcDecrypt(t, k, iv, c, m) == x + CbcDecrypt(t, k, c[..16], c[16..], m - 16)
            && CbcDecrypt(t, k, iv, c + b, m + n) == x + CbcDecrypt(t, k, c[..16], c[16..] + b, m + n - 16)
  {
    hide DecryptBytes, XorSeq;
    assert (c + b)[..16] == c[..16] && (c + b)[16..] == c[16..] + b;
  }

  lemma {:induction false} NothingBack(t: SBox, k: Schedule, iv: seq<Byte>, c: seq<Byte>)
    requires k.Valid() && |iv| == 16 && |c| == 0
    ensures RoundUp(0) == 0 && CbcDecrypt(t, k, iv, c, 0) == []
  {
  }

  /** The same for decryption. */
  lemma {:induction false} DecryptAppend(t: SBox, k: Schedule, iv: seq<Byte>, c: seq<Byte>, b: seq<Byte>, n: nat)
    requires k.Valid() && |iv| == 16 && |c| % 16 == 0 && |b| == RoundUp(n)
    ensures RoundUp(|c|) == |c| && RoundUp(|c| + n) == |c| + |b|
    ensures CbcDecrypt(t, k, iv, c + b, |c| + n) ==
            CbcDecrypt(t, k, iv, c, |c|) + CbcDecrypt(t, k, NextIv(iv, c), b, n)
    decreases |c|
  {
    hide DecryptBytes, XorSeq, CbcDecrypt, RoundUp;
    RoundUpPlus(|c|, n);
    RoundUpPlus(|c|, 0);
    NothingBack(t, k, iv, []);
    if |c| == 0 {
      assert c + b == b && c == [];
      assert [] + CbcDecrypt(t, k, iv, b, n) == CbcDecrypt(t, k, iv, b, n);
    } else {
      FirstBlockBack(t, k, iv, c, b, |c|, n);
      var head, tail := c[..16], c[16..];
      DecryptAppend(t, k, head, tail, b, n);
      NextIvTail(iv, head, tail);
      assert head + tail == c;
      var x := XorSeq(DecryptBytes(t, k, head), iv);
      var y, z := CbcDecrypt(t, k, head, tail, |tail|), CbcDecrypt(t, k, NextIv(head, tail), b, n);
      assert x + (y + z) == x + y + z;
    }
  }

  lemma {:induction false} ChainedZeros(p: seq<Byte>, iv: seq<Byte>)
    requires |p| <= 16 && |iv| == 16
    ensures Chained(p + seq(16 - |p|, _ => Byte(0)), iv) == Chained(p, iv)
  {
  }

  /** A partial last block is encrypted as if it were filled with zero bytes. */
  lemma {:induction false} PartialIsZeroPadded(t: SBox, k: Schedule, iv: seq<Byte>, p: seq<Byte>)
    requires k.Valid() && |iv| == 16
    ensures CbcEncrypt(t, k, iv, p) == CbcEncrypt(t, k, iv, p + seq(RoundUp(|p|) - |p|, _ => Byte(0)))
    decreases |p|
  {
    hide EncryptBytes, Chained;
    var zeros := seq(RoundUp(|p|) - |p|, _ => Byte(0));
    if |p| == 0 {
      assert p + zeros == p;
    } else if |p| < 16 {
      ChainedZeros(p, iv);
      var full := p + seq(16 - |p|, _ => Byte(0));
      assert full[..16] == full && full[16..] == [];
      var block := EncryptBytes(t, k, Chained(full, iv));
      assert CbcEncrypt(t, k, iv, full) == block + CbcEncrypt(t, k, block, full[16..]);
      assert CbcEncrypt(t, k, block, []) == [];
      assert block + [] == block;
      assert p + zeros == full;
    } else {
      var block := EncryptBytes(t, k, Chained(p[..16], iv));
      PartialIsZeroPadded(t, k, block, p[16..]);
      assert (p + zeros)[..16] == p[..16] && (p + zeros)[16..] == p[16..] + zeros;
    }
  }

  // ---------------------------------------------------------------------------------------------
  // NIST SP 800-38A section 6.2, block by block

  /** The bytes of the block at o, fewer than 16 at the end. */
  function BlockAt(p: seq<Byte>, o: nat): (b: seq<Byte>)
    requires o < |p|
    ensures 1 <= |b| <= 16
  {
    if o + 16 <= |p| then p[o..o + 16] else p[o..]
  }

  /** What the block at o is chained to: the cipher block before it, or iv. */
  function Before(iv: seq<Byte>, c: seq<Byte>, o: nat): (b: seq<Byte>)
    requires |iv| == 16 && o <= |c| && (o == 0 || 16 <= o)
    ensures |b| == 16
  {
    if o == 0 then iv else c[o - 16..o]
  }

  lemma {:induction false} BlockFitsIn(n: nat, o: nat)
    requires o % 16 == 0 && o < n
    ensures o + 16 <= RoundUp(n)
  {
  }

  lemma {:induction false} SliceBehind(c: seq<Byte>, n: nat, a: nat, b: nat)
    requires n <= a <= b <= |c|
    ensures c[n..][a - n..b - n] == c[a..b]
  {
    var x, y := c[n..][a - n..b - n], c[a..b];
    assert |x| == |y| && forall i | 0 <= i < |x| :: x[i] == y[i];
  }

  /** The block at o, seen from behind the first block. */
  lemma {:induction false} BehindFirst(iv: seq<Byte>, c: seq<Byte>, o: nat)
    requires |iv| == 16 && 16 <= o && o % 16 == 0 && o + 16 <= |c|
    ensures c[o..o + 16] == c[16..][o - 16..o]
    ensures Before(iv, c, o) == Before(c[..16], c[16..], o - 16)
  {
    SliceBehind(c, 16, o, o + 16);
    if o > 16 {
      SliceBehind(c, 16, o - 16, o);
    }
  }

  lemma {:induction false} BlockBehindFirst(p: seq<Byte>, o: nat)
    requires 16 <= o < |p|
    ensures BlockAt(p, o) == BlockAt(p[16..], o - 16)
  {
    SliceBehind(p, 16, o, if o + 16 <= |p| then o + 16 else |p|);
  }

  lemma {:induction false} CipherBlock(t: SBox, k: Schedule, iv: seq<Byte>, p: seq<Byte>, o: nat)
    requires k.Valid() && |iv| == 16 && o % 16 == 0 && o < |p|
    ensures var c := CbcEncrypt(t, k, iv, p);
            o + 16 <= |c| && c[o..o + 16] == EncryptBytes(t, k, Chained(BlockAt(p, o), Before(iv, c, o)))
    decreases o
  {
    hide EncryptBytes, Chained, RoundUp, CbcEncrypt;
    BlockFitsIn(|p|, o);
    var c := CbcEncrypt(t, k, iv, p);
    if |p| < 16 {
      ShortCipher(t, k, iv, p);
    } else {
      LongCipher(t, k, iv, p);
      if o > 0 {
        CipherBlock(t, k, c[..16], p[16..], o - 16);
        BehindFirst(iv, c, o);
        BlockBehindFirst(p, o);
      }
    }
  }

  lemma {:induction false} ShortCipher(t: SBox, k: Schedule, iv: seq<Byte>, p: seq<Byte>)
    requires k.Valid() && |iv| == 16 && 1 <= |p| < 16
    ensures BlockAt(p, 0) == p && CbcEncrypt(t, k, iv, p)[0..16] == EncryptBytes(t, k, Chained(p, iv))
  {
    hide EncryptBytes, Chained;
  }

  lemma {:induction false} LongCipher(t: SBox, k: Schedule, iv: seq<Byte>, p: seq<Byte>)
    requires k.Valid() && |iv| == 16 && 16 <= |p|
    ensures var c := CbcEncrypt(t, k, iv, p);
            && |c| >= 16 && c[..16] == c[0..16] == EncryptBytes(t, k, Chained(p[..16], iv))
            && c[16..] == CbcEncrypt(t, k, c[..16], p[16..]) && BlockAt(p, 0) == p[..16]
  {
    hide EncryptBytes, Chained;
    var block := EncryptBytes(t, k, Chained(p[..16], iv));
    var rest := CbcEncrypt(t, k, block, p[16..]);
    assert (block + rest)[..16] == block && (block + rest)[16..] == rest;
  }

  lemma {:induction false} PlainBlock(t: SBox, k: Schedule, iv: seq<Byte>, c: seq<Byte>, length: nat, o: nat)
    requires k.Valid() && |iv| == 16 && |c| == RoundUp(length) && o % 16 == 0 && o < length && o + 16 <= |c|
    ensures var b := BlockAt(CbcDecrypt(t, k, iv, c, length), o);
            b == XorSeq(DecryptBytes(t, k, c[o..o + 16])[..|b|], Before(iv, c, o))
    decreases o
  {
    hide DecryptBytes, XorSeq, RoundUp, CbcDecrypt;
    var p := CbcDecrypt(t, k, iv, c, length);
    if length < 16 {
      ShortPlain(t, k, iv, c, length);
    } else {
      LongPlain(t, k, iv, c, length);
      if o > 0 {
        PlainBlock(t, k, c[..16], c[16..], length - 16, o - 16);
        BehindFirst(iv, c, o);
        BlockBehindFirst(p, o);
      }
    }
  }

  lemma {:induction false} ShortPlain(t: SBox, k: Schedule, iv: seq<Byte>, c: seq<Byte>, length: nat)
    requires k.Valid() && |iv| == 16 && |c| == RoundUp(length) && 1 <= length < 16
    ensures var p := CbcDecrypt(t, k, iv, c, length);
            |c| == 16 && BlockAt(p, 0) == p == XorSeq(DecryptBytes(t, k, c[0..16])[..length], iv)
  {
    hide DecryptBytes, XorSeq;
    assert |c| == 16 && c[0..16] == c;
  }

  lemma {:induction false} LongPlain(t: SBox, k: Schedule, iv: seq<Byte>, c: seq<Byte>, length: nat)
    requires k.Valid() && |iv| == 16 && |c| == RoundUp(length) && 16 <= length
    ensures |c| >= 16 && RoundUp(length - 16) == |c[16..]|
    ensures var p := CbcDecrypt(t, k, iv, c, length);
            && BlockAt(p, 0) == XorSeq(DecryptBytes(t, k, c[0..16])[..16], iv)
            && p[16..] == CbcDecrypt(t, k, c[..16], c[16..], length - 16)
  {
    hide DecryptBytes, XorSeq;
    var head := c[..16];
    assert RoundUp(length - 16) == |c[16..]|;
    var first, rest := XorSeq(DecryptBytes(t, k, head), iv), CbcDecrypt(t, k, head, c[16..], length - 16);
    assert (first + rest)[..16] == first && (first + rest)[16..] == rest;
    assert c[0..16] == head && DecryptBytes(t, k, head)[..16] == DecryptBytes(t, k, head);
  }
}
