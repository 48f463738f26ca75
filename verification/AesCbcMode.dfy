/** AES_cbc_encrypt over arrays: block by block, with the chaining value carried in ivec. */
module AesCbcMode {
  import opened Words
  import opened AesTables
  import opened AesKeys
  import opened AesBlocks
  import opened AesCbc

  // ---------------------------------------------------------------------------------------------
  // What one more block adds

  /** The output grows by the encryption of the next n bytes, chained to what is there. */
  lemma {:induction false} GrowEncrypt(t: SBox, k: Schedule, iv: seq<Byte>, p: seq<Byte>, done: nat, n: nat)
    requires k.Valid() && |iv| == 16 && done % 16 == 0 && 1 <= n <= 16 && done + n <= |p|
    ensures var c := CbcEncrypt(t, k, iv, p[..done]);
            var block := EncryptBytes(t, k, Chained(p[done..done + n], NextIv(iv, c)));
            && CbcEncrypt(t, k, iv, p[..done + n]) == c + block
            && NextIv(iv, c + block) == block
  {
    hide EncryptBytes, Chained, CbcEncrypt;
    var c := CbcEncrypt(t, k, iv, p[..done]);
    EncryptAppend(t, k, iv, p[..done], p[done..done + n]);
    assert p[..done] + p[done..done + n] == p[..done + n];
    OneBlock(t, k, NextIv(iv, c), p[done..done + n]);
  }

  lemma {:induction false} OneBlock(t: SBox, k: Schedule, iv: seq<Byte>, p: seq<Byte>)
    requires k.Valid() && |iv| == 16 && 1 <= |p| <= 16
    ensures CbcEncrypt(t, k, iv, p) == EncryptBytes(t, k, Chained(p, iv))
  {
    hide EncryptBytes, Chained;
    if |p| == 16 {
      assert p[..16] == p && p[16..] == [];
    }
  }

  lemma {:induction false} GrowDecrypt(t: SBox, k: Schedule, iv: seq<Byte>, c: seq<Byte>, done: nat, n: nat)
    requires k.Valid() && |iv| == 16 && done % 16 == 0 && 1 <= n <= 16 && done + 16 <= |c|
    ensures var block := c[done..done + 16];
            && RoundUp(done) == done && RoundUp(done + n) == done + 16
            && CbcDecrypt(t, k, iv, c[..done + 16], done + n) ==
               CbcDecrypt(t, k, iv, c[..done], done) + XorSeq(DecryptBytes(t, k, block)[..n], NextIv(iv, c[..done]))
            && NextIv(iv, c[..done + 16]) == block
  {
    hide DecryptBytes, CbcDecrypt, XorSeq;
    var block := c[done..done + 16];
    assert RoundUp(n) == 16;
    DecryptAppend(t, k, iv, c[..done], block, n);
    assert c[..done] + block == c[..done + 16];
    OneBlockBack(t, k, NextIv(iv, c[..done]), block, n);
  }

  lemma {:induction false} OneBlockBack(t: SBox, k: Schedule, iv: seq<Byte>, c: seq<Byte>, n: nat)
    requires k.Valid() && |iv| == 16 && 1 <= n <= 16 && |c| == 16
    ensures RoundUp(n) == 16
    ensures CbcDecrypt(t, k, iv, c, n) == XorSeq(DecryptBytes(t, k, c)[..n], iv)
  {
    hide DecryptBytes, XorSeq;
    if n == 16 {
      assert c[..16] == c && c[16..] == [];
      assert DecryptBytes(t, k, c)[..16] == DecryptBytes(t, k, c);
      assert XorSeq(DecryptBytes(t, k, c), iv) + [] == XorSeq(DecryptBytes(t, k, c), iv);
    }
  }

  lemma {:induction false} SpliceAgain(s: seq<Byte>, o: nat, b: seq<Byte>, c: seq<Byte>)
    requires o + |b| <= |s| && |c| == |b|
    ensures Splice(s, o, b)[o..o + |b|] == b
    ensures Splice(Splice(s, o, b), o, c) == Splice(s, o, c)
  {
  }

  /** From byte done on, the input still holds p. */
  ghost predicate Rest(input: seq<Byte>, i: nat, p: seq<Byte>, done: nat) {
    i + |p| <= |input| && (forall x | done <= x < |p| :: input[i + x] == p[x])
  }

  lemma {:induction false} RestSlice(input: seq<Byte>, i: nat, p: seq<Byte>, done: nat, n: nat)
    requires Rest(input, i, p, done) && done + n <= |p|
    ensures input[i + done..i + done + n] == p[done..done + n]
  {
  }

  lemma {:induction false} RestKept(before: seq<Byte>, after: seq<Byte>, i: nat, p: seq<Byte>, done: nat, next: nat)
    requires Rest(before, i, p, done) && done <= next && |after| == |before|
    requires forall x | i + next <= x < |before| :: after[x] == before[x]
    ensures Rest(after, i, p, next)
  {
  }

  // ---------------------------------------------------------------------------------------------
  // The byte loops

  /** tmp becomes the n input bytes added to the chaining value, and the rest of the chaining value. */
  method ChainInto(tmp: array<Byte>, input: array<Byte>, i: nat, ivec: array<Byte>, n: nat)
    requires tmp.Length == 16 && ivec.Length == 16 && n <= 16 && i + n <= input.Length && tmp != input && tmp != ivec
    modifies tmp
    ensures tmp[..] == Chained(input[i..i + n], ivec[..])
  {
    hide Add;
    var j := 0;
    while j < n
      invariant 0 <= j <= n
      invariant forall x | 0 <= x < j :: tmp[x] == Add(input[i + x], ivec[x])
    {
      tmp[j] := Add(input[i + j], ivec[j]);
      j := j + 1;
    }
    while j < 16
      invariant n <= j <= 16
      invariant forall x | 0 <= x < n :: tmp[x] == Add(input[i + x], ivec[x])
      invariant forall x | n <= x < j :: tmp[x] == ivec[x]
    {
      tmp[j] := ivec[j];
      j := j + 1;
    }
  }

  method CopyBlock(dst: array<Byte>, o: nat, src: array<Byte>, i: nat)
    requires i + 16 <= src.Length && o + 16 <= dst.Length && src != dst
    modifies dst
    ensures dst[..] == Splice(old(dst[..]), o, src[i..i + 16])
  {
    var j := 0;
    while j < 16
      invariant 0 <= j <= 16
      invariant dst[..] == old(dst[..])[..o] + src[i..i + j] + old(dst[..])[o + j..]
    {
      dst[o + j] := src[i + j];
      j := j + 1;
    }
  }

  /** n bytes of the output become the decrypted bytes added to the chaining value. */
  method XorOut(output: array<Byte>, o: nat, src: array<Byte>, i: nat, ivec: array<Byte>, n: nat)
    requires ivec.Length == 16 && n <= 16 && i + n <= src.Length && o + n <= output.Length && ivec != output
    requires src == output ==> i == o
    modifies output
    ensures output[..] == Splice(old(output[..]), o, XorSeq(old(src[i..i + n]), ivec[..]))
  {
    hide Add, Splice;
    var j := 0;
    while j < n
      invariant 0 <= j <= n
      invariant forall x | 0 <= x < output.Length && !(o <= x < o + j) :: output[x] == old(output[x])
      invariant forall x | i + j <= x < i + n :: src[x] == old(src[x])
      invariant forall x | 0 <= x < j :: output[o + x] == Add(old(src[i + x]), ivec[x])
    {
      output[o + j] := Add(src[i + j], ivec[j]);
      j := j + 1;
    }
    ghost var sum := XorSeq(old(src[i..i + n]), ivec[..]);
    forall x | 0 <= x < n
      ensures output[o + x] == sum[x]
    {
      assert old(src[i..i + n])[x] == old(src[i + x]);
    }
    SplicedIs(old(output[..]), o, sum, output[..]);
  }

  lemma {:induction false} SplicedIs(s: seq<Byte>, o: nat, b: seq<Byte>, r: seq<Byte>)
    requires o + |b| <= |s| == |r|
    requires forall x | 0 <= x < |s| && !(o <= x < o + |b|) :: r[x] == s[x]
    requires forall x | 0 <= x < |b| :: r[o + x] == b[x]
    ensures r == Splice(s, o, b)
  {
  }

  // ---------------------------------------------------------------------------------------------
  // Encryption

  /** One block, whole or partial, is chained, encrypted and becomes the new chaining value. */
  method EncryptOne(t: SBox, input: array<Byte>, i: nat, n: nat, output: array<Byte>, o: nat, key: AesKey,
                    ivec: array<Byte>, tmp: array<Byte>)
    requires key.Ready() && 1 <= n <= 16 && i + n <= input.Length && o + 16 <= output.Length
    requires ivec.Length == 16 && tmp.Length == 16 && ivec != input && ivec != output
    requires tmp != input && tmp != output && tmp != ivec
    modifies output, ivec, tmp
    ensures var c := EncryptBytes(t, old(ScheduleOf(key)), Chained(old(input[i..i + n]), old(ivec[..])));
            output[..] == Splice(old(output[..]), o, c) && ivec[..] == c
  {
    hide EncryptBytes, Chained, Splice;
    ChainInto(tmp, input, i, ivec, n);
    ghost var x := tmp[..];
    assert tmp[0..16] == x;
    ghost var c := EncryptBytes(t, ScheduleOf(key), x);
    if n == 16 {
      Encrypt(t, tmp, 0, output, o, key);
      SpliceAgain(old(output[..]), o, c, c);
      assert output[o..o + 16] == c;
      ghost var before := ivec[..];
      CopyBlock(ivec, 0, output, o);
      SpliceAll(before, c);
    } else {
      Encrypt(t, tmp, 0, tmp, 0, key);
      SpliceAll(x, c);
      assert tmp[0..16] == c;
      CopyBlock(output, o, tmp, 0);
      ghost var before := ivec[..];
      CopyBlock(ivec, 0, tmp, 0);
      SpliceAll(before, c);
    }
  }

  ghost predicate Encrypted(t: SBox, k: Schedule, iv: seq<Byte>, p: seq<Byte>, done: nat, was: seq<Byte>, o: nat,
                            output: seq<Byte>, ivec: seq<Byte>)
    requires k.Valid() && |iv| == 16 && done <= |p|
  {
    var c := CbcEncrypt(t, k, iv, p[..done]);
    o + |c| <= |was| && output == Splice(was, o, c) && ivec == NextIv(iv, c)
  }

  lemma {:induction false} NoneEncrypted(t: SBox, k: Schedule, iv: seq<Byte>, p: seq<Byte>, was: seq<Byte>, o: nat)
    requires k.Valid() && |iv| == 16 && o <= |was|
    ensures Encrypted(t, k, iv, p, 0, was, o, was, iv)
  {
  }

  /** One encrypted block more, and what it leaves of the bytes behind it. */
  lemma {:induction false} OneMoreEncrypted(t: SBox, k: Schedule, iv: seq<Byte>, p: seq<Byte>, done: nat, n: nat,
                                            was: seq<Byte>, o: nat, output: seq<Byte>, ivec: seq<Byte>)
    requires k.Valid() && |iv| == 16 && |ivec| == 16 && done % 16 == 0 && 1 <= n <= 16 && done + n <= |p|
    requires o + done + 16 <= |was|
    requires Encrypted(t, k, iv, p, done, was, o, output, ivec)
    ensures |output| == |was|
    ensures var block := EncryptBytes(t, k, Chained(p[done..done + n], ivec));
            && Encrypted(t, k, iv, p, done + n, was, o, Splice(output, o + done, block), block)
            && (forall x | o + done + 16 <= x < |was| :: Splice(output, o + done, block)[x] == output[x])
  {
    hide EncryptBytes, Chained, CbcEncrypt;
    var c := CbcEncrypt(t, k, iv, p[..done]);
    assert |c| == done by { WholeBlocks(done); }
    GrowEncrypt(t, k, iv, p, done, n);
    SpliceTwice(was, o, c, EncryptBytes(t, k, Chained(p[done..done + n], ivec)));
  }

  lemma {:induction false} WholeBlocks(n: nat)
    requires n % 16 == 0
    ensures RoundUp(n) == n
  {
  }

  /** The output is the one there was with the cipher text of p at o, and ivec is ready to go on. */
  ghost predicate EncryptedInto(t: SBox, k: Schedule, iv: seq<Byte>, p: seq<Byte>, was: seq<Byte>, o: nat,
                                output: seq<Byte>, ivec: seq<Byte>)
    requires k.Valid() && |iv| == 16
  {
    var c := CbcEncrypt(t, k, iv, p);
    o + |c| <= |was| && output == Splice(was, o, c) && ivec == NextIv(iv, c)
  }

  method EncryptNext(t: SBox, input: array<Byte>, i: nat, n: nat, output: array<Byte>, o: nat, key: AesKey,
                     ivec: array<Byte>, tmp: array<Byte>, done: nat, ghost iv: seq<Byte>, ghost p: seq<Byte>,
                     ghost was: seq<Byte>)
    requires key.Ready() && done % 16 == 0 && 1 <= n <= 16 && done + n <= |p| && i + |p| <= input.Length
    requires o + done + 16 <= output.Length == |was| && |iv| == 16
    requires ivec.Length == 16 && tmp.Length == 16 && ivec != input && ivec != output
    requires tmp != input && tmp != output && tmp != ivec
    requires input == output ==> i == o
    requires Rest(input[..], i, p, done)
    requires Encrypted(t, ScheduleOf(key), iv, p, done, was, o, output[..], ivec[..])
    modifies output, ivec, tmp
    ensures ScheduleOf(key) == old(ScheduleOf(key))
    ensures Encrypted(t, ScheduleOf(key), iv, p, done + n, was, o, output[..], ivec[..])
    ensures Rest(input[..], i, p, done + 16)
  {
    hide EncryptBytes, Chained, CbcEncrypt, Encrypted, Splice, Rest;
    ghost var k, out, before := ScheduleOf(key), output[..], input[..];
    RestSlice(before, i, p, done, n);
    assert input[i + done..i + done + n] == before[i + done..i + done + n];
    OneMoreEncrypted(t, k, iv, p, done, n, was, o, out, ivec[..]);
    EncryptOne(t, input, i + done, n, output, o + done, key, ivec, tmp);
    RestKept(before, input[..], i, p, done, done + 16);
  }

  method CbcEncryptInto(t: SBox, input: array<Byte>, i: nat, output: array<Byte>, o: nat, length: nat, key: AesKey,
                        ivec: array<Byte>)
    requires key.Ready() && i + length <= input.Length && o + RoundUp(length) <= output.Length
    requires ivec.Length == 16 && ivec != input && ivec != output
    requires input == output ==> i == o
    modifies output, ivec
    ensures EncryptedInto(t, old(ScheduleOf(key)), old(ivec[..]), old(input[i..i + length]), old(output[..]), o,
                          output[..], ivec[..])
  {
    hide CbcEncrypt, Encrypted, EncryptedInto, Splice, Rest, NextIv, RoundUp;
    ghost var k, iv, p, was := ScheduleOf(key), ivec[..], input[i..i + length], output[..];
    var tmp := new Byte[16](_ => Byte(0));
    var len := length;
    var done := 0;
    NoneEncrypted(t, k, iv, p, was, o);
    AllRest(input[..], i, p);
    while len >= 16
      invariant 0 <= len && done == length - len && done % 16 == 0
      invariant ScheduleOf(key) == k
      invariant Encrypted(t, k, iv, p, done, was, o, output[..], ivec[..])
      invariant Rest(input[..], i, p, done)
    {
      BlockFits(length, done, 16);
      EncryptNext(t, input, i, 16, output, o, key, ivec, tmp, done, iv, p, was);
      len := len - 16;
      done := done + 16;
    }
    if len != 0 {
      BlockFits(length, done, len);
      EncryptNext(t, input, i, len, output, o, key, ivec, tmp, done, iv, p, was);
    }
    AllEncrypted(t, k, iv, p, was, o, output[..], ivec[..]);
  }

  lemma {:induction false} AllRest(input: seq<Byte>, i: nat, p: seq<Byte>)
    requires i + |p| <= |input| && p == input[i..i + |p|]
    ensures Rest(input, i, p, 0)
  {
  }

  lemma {:induction false} BlockFits(length: nat, done: nat, n: nat)
    requires done % 16 == 0 && 1 <= n <= 16 && done + n <= length
    ensures done + 16 <= RoundUp(length)
  {
  }

  lemma {:induction false} AllEncrypted(t: SBox, k: Schedule, iv: seq<Byte>, p: seq<Byte>, was: seq<Byte>, o: nat,
                                        output: seq<Byte>, ivec: seq<Byte>)
    requires k.Valid() && |iv| == 16 && Encrypted(t, k, iv, p, |p|, was, o, output, ivec)
    ensures EncryptedInto(t, k, iv, p, was, o, output, ivec)
  {
    hide CbcEncrypt;
    assert p[..|p|] == p;
  }

  lemma {:induction false} InTwoCalls(t: SBox, k: Schedule, iv: seq<Byte>, p: seq<Byte>, q: seq<Byte>, was: seq<Byte>, o: nat,
                                      mid: seq<Byte>, ivec: seq<Byte>, output: seq<Byte>, last: seq<Byte>)
    requires k.Valid() && |iv| == 16 && |p| % 16 == 0 && |ivec| == 16
    requires EncryptedInto(t, k, iv, p, was, o, mid, ivec)
    requires EncryptedInto(t, k, ivec, q, mid, o + |p|, output, last)
    ensures EncryptedInto(t, k, iv, p + q, was, o, output, last)
  {
    hide CbcEncrypt, Splice, RoundUp, NextIv;
    var c, d := CbcEncrypt(t, k, iv, p), CbcEncrypt(t, k, ivec, q);
    WholeBlocks(|p|);
    EncryptAppend(t, k, iv, p, q);
    SpliceTwice(was, o, c, d);
    NextIvJoin(iv, c, d);
  }

  lemma {:induction false} NextIvJoin(iv: seq<Byte>, c: seq<Byte>, d: seq<Byte>)
    requires |iv| == 16 && |c| % 16 == 0 && |d| % 16 == 0
    ensures NextIv(iv, c + d) == NextIv(NextIv(iv, c), d)
  {
    if |d| == 0 {
      assert c + d == c;
    } else {
      assert (c + d)[|c| + |d| - 16..] == d[|d| - 16..];
    }
  }

  /** Two calls, the first over whole blocks, with the carried ivec do what one call does, also in place. */
  method CbcEncryptTwice(t: SBox, input: array<Byte>, i: nat, output: array<Byte>, o: nat, m: nat, n: nat, key: AesKey,
                         ivec: array<Byte>)
    requires key.Ready() && m % 16 == 0 && i + m + n <= input.Length && o + m + RoundUp(n) <= output.Length
    requires ivec.Length == 16 && ivec != input && ivec != output
    requires input == output ==> i == o
    modifies output, ivec
    ensures EncryptedInto(t, old(ScheduleOf(key)), old(ivec[..]), old(input[i..i + m + n]), old(output[..]), o,
                          output[..], ivec[..])
  {
    hide EncryptedInto, RoundUp;
    ghost var k, iv, was := ScheduleOf(key), ivec[..], output[..];
    ghost var before := input[..];
    ghost var p, q := before[i..i + m], before[i + m..i + m + n];
    assert input[i..i + m] == p;
    assert input[i..i + m + n] == before[i..i + m + n];
    WholeBlocks(m);
    CbcEncryptInto(t, input, i, output, o, m, key, ivec);
    ghost var mid, next := output[..], ivec[..];
    LeavesRest(t, k, iv, p, was, o, mid, next);
    assert input[i + m..i + m + n] == q;
    CbcEncryptInto(t, input, i + m, output, o + m, n, key, ivec);
    InTwoCalls(t, k, iv, p, q, was, o, mid, next, output[..], ivec[..]);
    SliceJoin(before, i, m, n);
  }

  lemma {:induction false} SliceJoin(s: seq<Byte>, i: nat, m: nat, n: nat)
    requires i + m + n <= |s|
    ensures s[i..i + m] + s[i + m..i + m + n] == s[i..i + m + n]
  {
  }

  lemma {:induction false} LeavesRest(t: SBox, k: Schedule, iv: seq<Byte>, p: seq<Byte>, was: seq<Byte>, o: nat,
                                      output: seq<Byte>, ivec: seq<Byte>)
    requires k.Valid() && |iv| == 16 && |p| % 16 == 0 && EncryptedInto(t, k, iv, p, was, o, output, ivec)
    ensures |output| == |was| && forall x | o + |p| <= x < |was| :: output[x] == was[x]
  {
    hide CbcEncrypt, RoundUp;
    WholeBlocks(|p|);
  }

  // ---------------------------------------------------------------------------------------------
  // Decryption

  /** The chaining value a decryption leaves: after a partial last block, that block's decrypted bytes. */
  function IvAfterDecrypt(t: SBox, k: Schedule, iv: seq<Byte>, c: seq<Byte>, length: nat): (r: seq<Byte>)
    requires k.Valid() && |iv| == 16 && |c| == RoundUp(length)
  {
    if length % 16 == 0 then NextIv(iv, c) else DecryptBytes(t, k, c[|c| - 16..])
  }

  /** One whole block is decrypted and added to the chaining value, which becomes the cipher block. */
  method DecryptOne(t: SBox, input: array<Byte>, i: nat, output: array<Byte>, o: nat, key: AesKey,
                    ivec: array<Byte>, tmp: array<Byte>)
    requires key.Ready() && i + 16 <= input.Length && o + 16 <= output.Length
    requires ivec.Length == 16 && tmp.Length == 16 && ivec != input && ivec != output
    requires tmp != input && tmp != output && tmp != ivec
    modifies output, ivec, tmp
    ensures var c := old(input[i..i + 16]);
            && output[..] == Splice(old(output[..]), o, XorSeq(DecryptBytes(t, old(ScheduleOf(key)), c), old(ivec[..])))
            && ivec[..] == c
  {
    hide DecryptBytes, XorSeq, Splice;
    ghost var c, x, was, iv := input[i..i + 16], tmp[..], output[..], ivec[..];
    CopyBlock(tmp, 0, input, i);
    SpliceAll(x, c);
    assert tmp[0..16] == c;
    Decrypt(t, input, i, output, o, key);
    ghost var b := DecryptBytes(t, old(ScheduleOf(key)), c);
    SpliceAgain(was, o, b, XorSeq(b, iv));
    assert output[o..o + 16] == b;
    XorOut(output, o, output, o, ivec, 16);
    CopyBlock(ivec, 0, tmp, 0);
    SpliceAll(iv, c);
  }

  /** The last n bytes, decrypted from a whole block through tmp. */
  method DecryptLast(t: SBox, input: array<Byte>, i: nat, n: nat, output: array<Byte>, o: nat, key: AesKey,
                     ivec: array<Byte>, tmp: array<Byte>)
    requires key.Ready() && 1 <= n < 16 && i + 16 <= input.Length && o + n <= output.Length
    requires ivec.Length == 16 && tmp.Length == 16 && ivec != input && ivec != output
    requires tmp != input && tmp != output && tmp != ivec
    modifies output, ivec, tmp
    ensures var b := DecryptBytes(t, old(ScheduleOf(key)), old(input[i..i + 16]));
            && output[..] == Splice(old(output[..]), o, XorSeq(b[..n], old(ivec[..])))
            && ivec[..] == b
  {
    hide DecryptBytes, XorSeq, Splice;
    ghost var c, x, iv := input[i..i + 16], tmp[..], ivec[..];
    CopyBlock(tmp, 0, input, i);
    SpliceAll(x, c);
    assert tmp[0..16] == c;
    Decrypt(t, tmp, 0, tmp, 0, key);
    ghost var b := DecryptBytes(t, old(ScheduleOf(key)), c);
    SpliceAll(c, b);
    assert tmp[0..n] == b[..n];
    XorOut(output, o, tmp, 0, ivec, n);
    assert tmp[0..16] == b;
    CopyBlock(ivec, 0, tmp, 0);
    SpliceAll(iv, b);
  }

  ghost predicate Decrypted(t: SBox, k: Schedule, iv: seq<Byte>, c: seq<Byte>, done: nat, was: seq<Byte>, o: nat,
                            output: seq<Byte>, ivec: seq<Byte>)
    requires k.Valid() && |iv| == 16 && RoundUp(done) <= |c|
  {
    var p := CbcDecrypt(t, k, iv, c[..RoundUp(done)], done);
    o + |p| <= |was| && output == Splice(was, o, p) && ivec == IvAfterDecrypt(t, k, iv, c[..RoundUp(done)], done)
  }

  lemma {:induction false} NoneDecrypted(t: SBox, k: Schedule, iv: seq<Byte>, c: seq<Byte>, was: seq<Byte>, o: nat)
    requires k.Valid() && |iv| == 16 && o <= |was|
    ensures Decrypted(t, k, iv, c, 0, was, o, was, iv)
  {
  }

  lemma {:induction false} OneMoreDecrypted(t: SBox, k: Schedule, iv: seq<Byte>, c: seq<Byte>, done: nat, n: nat,
                                            was: seq<Byte>, o: nat, output: seq<Byte>, ivec: seq<Byte>)
    requires k.Valid() && |iv| == 16 && |ivec| == 16 && done % 16 == 0 && 1 <= n <= 16 && done + 16 <= |c|
    requires o + done + n <= |was| && RoundUp(done) <= |c| && RoundUp(done + n) <= |c|
    requires Decrypted(t, k, iv, c, done, was, o, output, ivec)
    ensures |output| == |was|
    ensures var b := DecryptBytes(t, k, c[done..done + 16]);
            var next := Splice(output, o + done, XorSeq(b[..n], ivec));
            && Decrypted(t, k, iv, c, done + n, was, o, next, if n == 16 then c[done..done + 16] else b)
            && (forall x | o + done + n <= x < |was| :: next[x] == output[x])
  {
    hide DecryptBytes, CbcDecrypt, XorSeq, RoundUp, IvAfterDecrypt, Splice;
    WholeBlocks(done);
    IvAfterWhole(t, k, iv, c, done);
    var p := CbcDecrypt(t, k, iv, c[..done], done);
    GrowDecrypt(t, k, iv, c, done, n);
    var add := XorSeq(DecryptBytes(t, k, c[done..done + 16])[..n], ivec);
    SpliceTwice(was, o, p, add);
    SpliceKeeps(output, o + done, add);
    IvAfterIs(t, k, iv, c, done, n);
  }

  lemma {:induction false} SpliceKeeps(s: seq<Byte>, o: nat, b: seq<Byte>)
    requires o + |b| <= |s|
    ensures forall x | o + |b| <= x < |s| :: Splice(s, o, b)[x] == s[x]
  {
  }

  lemma {:induction false} IvAfterWhole(t: SBox, k: Schedule, iv: seq<Byte>, c: seq<Byte>, done: nat)
    requires k.Valid() && |iv| == 16 && done % 16 == 0 && done <= |c| && RoundUp(done) == done
    ensures IvAfterDecrypt(t, k, iv, c[..done], done) == NextIv(iv, c[..done])
  {
  }

  lemma {:induction false} IvAfterIs(t: SBox, k: Schedule, iv: seq<Byte>, c: seq<Byte>, done: nat, n: nat)
    requires k.Valid() && |iv| == 16 && done % 16 == 0 && 1 <= n <= 16 && done + 16 <= |c|
    requires RoundUp(done + n) == done + 16
    ensures var block := c[done..done + 16];
            IvAfterDecrypt(t, k, iv, c[..done + 16], done + n) == if n == 16 then block else DecryptBytes(t, k, block)
  {
    hide DecryptBytes, RoundUp;
    assert c[..done + 16][done..] == c[done..done + 16];
  }

  /** The output is the one there was with the plain text of c at o. */
  ghost predicate DecryptedInto(t: SBox, k: Schedule, iv: seq<Byte>, c: seq<Byte>, length: nat, was: seq<Byte>, o: nat,
                                output: seq<Byte>, ivec: seq<Byte>)
    requires k.Valid() && |iv| == 16 && |c| == RoundUp(length)
  {
    var p := CbcDecrypt(t, k, iv, c, length);
    o + |p| <= |was| && output == Splice(was, o, p) && ivec == IvAfterDecrypt(t, k, iv, c, length)
  }

  method DecryptNext(t: SBox, input: array<Byte>, i: nat, n: nat, output: array<Byte>, o: nat, key: AesKey,
                     ivec: array<Byte>, tmp: array<Byte>, done: nat, ghost iv: seq<Byte>, ghost c: seq<Byte>,
                     ghost was: seq<Byte>)
    requires key.Ready() && done % 16 == 0 && 1 <= n <= 16 && done + 16 <= |c| && i + |c| <= input.Length
    requires o + done + n <= output.Length == |was| && |iv| == 16 && RoundUp(done) <= |c| && RoundUp(done + n) <= |c|
    requires ivec.Length == 16 && tmp.Length == 16 && ivec != input && ivec != output
    requires tmp != input && tmp != output && tmp != ivec
    requires input == output ==> i == o
    requires Rest(input[..], i, c, done)
    requires Decrypted(t, ScheduleOf(key), iv, c, done, was, o, output[..], ivec[..])
    modifies output, ivec, tmp
    ensures ScheduleOf(key) == old(ScheduleOf(key))
    ensures Decrypted(t, ScheduleOf(key), iv, c, done + n, was, o, output[..], ivec[..])
    ensures Rest(input[..], i, c, done + n)
  {
    hide DecryptBytes, XorSeq, CbcDecrypt, Decrypted, Splice, Rest, RoundUp;
    ghost var k, out, before := ScheduleOf(key), output[..], input[..];
    RestSlice(before, i, c, done, 16);
    assert input[i + done..i + done + 16] == before[i + done..i + done + 16];
    OneMoreDecrypted(t, k, iv, c, done, n, was, o, out, ivec[..]);
    ghost var b := DecryptBytes(t, k, c[done..done + 16]);
    assert b[..16] == b;
    if n == 16 {
      DecryptOne(t, input, i + done, output, o + done, key, ivec, tmp);
    } else {
      DecryptLast(t, input, i + done, n, output, o + done, key, ivec, tmp);
    }
    RestKept(before, input[..], i, c, done, done + n);
  }

  method CbcDecryptInto(t: SBox, input: array<Byte>, i: nat, output: array<Byte>, o: nat, length: nat, key: AesKey,
                        ivec: array<Byte>)
    requires key.Ready() && i + RoundUp(length) <= input.Length && o + length <= output.Length
    requires ivec.Length == 16 && ivec != input && ivec != output
    requires input == output ==> i == o
    modifies output, ivec
    ensures DecryptedInto(t, old(ScheduleOf(key)), old(ivec[..]), old(input[i..i + RoundUp(length)]), length,
                          old(output[..]), o, output[..], ivec[..])
  {
    hide CbcDecrypt, Decrypted, DecryptedInto, Splice, Rest, RoundUp, IvAfterDecrypt;
    ghost var k, iv, c, was := ScheduleOf(key), ivec[..], input[i..i + RoundUp(length)], output[..];
    var tmp := new Byte[16](_ => Byte(0));
    var len := length;
    var done := 0;
    NoneDecrypted(t, k, iv, c, was, o);
    AllRest(input[..], i, c);
    while len >= 16
      invariant 0 <= len && done == length - len && done % 16 == 0 && RoundUp(done) <= |c|
      invariant ScheduleOf(key) == k
      invariant Decrypted(t, k, iv, c, done, was, o, output[..], ivec[..])
      invariant Rest(input[..], i, c, done)
    {
      BlockFits(length, done, 16);
      PartFits(length, done, 16);
      DecryptNext(t, input, i, 16, output, o, key, ivec, tmp, done, iv, c, was);
      len := len - 16;
      done := done + 16;
    }
    if len != 0 {
      BlockFits(length, done, len);
      PartFits(length, done, len);
      DecryptNext(t, input, i, len, output, o, key, ivec, tmp, done, iv, c, was);
    }
    AllDecrypted(t, k, iv, c, length, was, o, output[..], ivec[..]);
  }

  lemma {:induction false} PartFits(length: nat, done: nat, n: nat)
    requires done % 16 == 0 && 1 <= n <= 16 && done + n <= length
    ensures RoundUp(done) <= RoundUp(length) && RoundUp(done + n) <= RoundUp(length)
  {
    WholeBlocks(done);
    BlockFits(length, done, n);
    RoundUpPlus(done, n);
  }

  lemma {:induction false} AllDecrypted(t: SBox, k: Schedule, iv: seq<Byte>, c: seq<Byte>, length: nat, was: seq<Byte>,
                                        o: nat, output: seq<Byte>, ivec: seq<Byte>)
    requires k.Valid() && |iv| == 16 && |c| == RoundUp(length) && Decrypted(t, k, iv, c, length, was, o, output, ivec)
    ensures DecryptedInto(t, k, iv, c, length, was, o, output, ivec)
  {
    hide CbcDecrypt, IvAfterDecrypt, RoundUp;
    assert c[..RoundUp(length)] == c;
  }
}
