/** Several calls of AES_cbc_encrypt: decryption in two calls, and decryption of what was encrypted. */
module AesCbcCalls {
  import opened Words
  import opened AesTables
  import opened AesCipher
  import opened AesKeys
  import opened AesBlocks
  import opened AesCbc
  import opened AesCbcMode

  // ---------------------------------------------------------------------------------------------
  // Decryption in two calls

  lemma {:induction false} IvAfterAppend(t: SBox, k: Schedule, iv: seq<Byte>, c: seq<Byte>, b: seq<Byte>, n: nat)
    requires k.Valid() && |iv| == 16 && |c| % 16 == 0 && |b| == RoundUp(n) && |c + b| == RoundUp(|c| + n)
    ensures IvAfterDecrypt(t, k, iv, c + b, |c| + n) == IvAfterDecrypt(t, k, NextIv(iv, c), b, n)
  {
    hide DecryptBytes, NextIv, RoundUp;
    if n % 16 == 0 {
      NextIvJoin(iv, c, b);
    } else {
      assert (c + b)[|c| + |b| - 16..] == b[|b| - 16..];
    }
  }

  lemma {:induction false} DecryptInTwoCalls(t: SBox, k: Schedule, iv: seq<Byte>, c: seq<Byte>, b: seq<Byte>, n: nat,
                                             was: seq<Byte>, o: nat, mid: seq<Byte>, ivec: seq<Byte>, output: seq<Byte>, last: seq<Byte>)
    requires k.Valid() && |iv| == 16 && |c| % 16 == 0 && |ivec| == 16
    requires |b| == RoundUp(n) && |c + b| == RoundUp(|c| + n) && |c| == RoundUp(|c|)
    requires DecryptedInto(t, k, iv, c, |c|, was, o, mid, ivec)
    requires DecryptedInto(t, k, ivec, b, n, mid, o + |c|, output, last)
    ensures DecryptedInto(t, k, iv, c + b, |c| + n, was, o, output, last)
  {
    hide CbcDecrypt, Splice, RoundUp, NextIv, IvAfterDecrypt;
    DecryptAppend(t, k, iv, c, b, n);
    assert c[..|c|] == c;
    IvAfterWhole(t, k, iv, c, |c|);
    IvAfterAppend(t, k, iv, c, b, n);
    SpliceTwice(was, o, CbcDecrypt(t, k, iv, c, |c|), CbcDecrypt(t, k, ivec, b, n));
  }

  lemma {:induction false} DecryptLeavesRest(t: SBox, k: Schedule, iv: seq<Byte>, c: seq<Byte>, length: nat, was: seq<Byte>,
                                             o: nat, output: seq<Byte>, ivec: seq<Byte>)
    requires k.Valid() && |iv| == 16 && |c| == RoundUp(length) && DecryptedInto(t, k, iv, c, length, was, o, output, ivec)
    ensures |output| == |was| && o + length <= |was| && output[o..o + length] == CbcDecrypt(t, k, iv, c, length)
    ensures forall x | 0 <= x < |was| && !(o <= x < o + length) :: output[x] == was[x]
  {
    hide CbcDecrypt, RoundUp, IvAfterDecrypt;
  }

  /** Two calls, the first over whole blocks, with the carried ivec do what one call does, also in place. */
  method CbcDecryptTwice(t: SBox, input: array<Byte>, i: nat, output: array<Byte>, o: nat, m: nat, n: nat, key: AesKey,
                         ivec: array<Byte>)
    requires key.Ready() && m % 16 == 0 && i + m + RoundUp(n) <= input.Length && o + m + n <= output.Length
    requires ivec.Length == 16 && ivec != input && ivec != output
    requires input == output ==> i == o
    modifies output, ivec
    ensures RoundUp(m + n) == m + RoundUp(n)
    ensures DecryptedInto(t, old(ScheduleOf(key)), old(ivec[..]), old(input[i..i + m + RoundUp(n)]), m + n, old(output[..]), o,
                          output[..], ivec[..])
  {
    hide DecryptedInto, CbcDecrypt, RoundUp;
    RoundUpPlus(m, n);
    WholeBlocks(m);
    ghost var k, iv, was, before, r := ScheduleOf(key), ivec[..], output[..], input[..], RoundUp(n);
    ghost var c, b := before[i..i + m], before[i + m..i + m + r];
    assert input[i..i + RoundUp(m)] == c && input[i..i + m + r] == before[i..i + m + r];
    CbcDecryptInto(t, input, i, output, o, m, key, ivec);
    ghost var mid, next := output[..], ivec[..];
    assert DecryptedInto(t, k, iv, c, m, was, o, mid, next);
    DecryptLeavesRest(t, k, iv, c, m, was, o, mid, next);
    assert ScheduleOf(key) == k;
    assert input[i + m..i + m + r] == b;
    CbcDecryptInto(t, input, i + m, output, o + m, n, key, ivec);
    assert DecryptedInto(t, k, next, b, n, mid, o + m, output[..], ivec[..]);
    SliceJoin(before, i, m, r);
    assert m == |c| && c + b == old(input[i..i + m + r]);
    DecryptInTwoCalls(t, k, iv, c, b, n, was, o, mid, next, output[..], ivec[..]);
  }

  // ---------------------------------------------------------------------------------------------
  // Encryption, then decryption

  lemma {:induction false} EncryptPlaces(t: SBox, k: Schedule, iv: seq<Byte>, p: seq<Byte>, was: seq<Byte>, o: nat,
                                         output: seq<Byte>, ivec: seq<Byte>)
    requires k.Valid() && |iv| == 16 && EncryptedInto(t, k, iv, p, was, o, output, ivec)
    ensures |output| == |was| && o + RoundUp(|p|) <= |was| && output[o..o + RoundUp(|p|)] == CbcEncrypt(t, k, iv, p)
    ensures forall x | 0 <= x < |was| && !(o <= x < o + RoundUp(|p|)) :: output[x] == was[x]
  {
    hide CbcEncrypt, RoundUp;
  }

  method CopyOf(iv: seq<Byte>) returns (ivec: array<Byte>)
    requires |iv| == 16
    ensures fresh(ivec) && ivec[..] == iv
  {
    ivec := new Byte[16](i requires 0 <= i < 16 => iv[i]);
  }

  /** For every user key, chaining value and length: the bytes encrypted in place and decrypted in place come back,
      and no byte outside their blocks changes. */
  method EncryptThenDecrypt(t: SBox, user: seq<Byte>, bits: int, iv: seq<Byte>, buf: array<Byte>, o: nat, length: nat, key: AesKey)
    requires Undoes(t) && BitsOk(bits) && bits / 8 <= |user| && |iv| == 16 && o + RoundUp(length) <= buf.Length && key.Valid()
    modifies key, key.rdKey, buf
    ensures buf[o..o + length] == old(buf[o..o + length])
    ensures forall x | 0 <= x < buf.Length && !(o <= x < o + RoundUp(length)) :: buf[x] == old(buf[x])
  {
    hide Undoes, CbcEncrypt, CbcDecrypt, DecryptSchedule, Expansion, KeyWords, EncryptedInto, DecryptedInto, RoundUp;
    ghost var was, p := buf[..], buf[o..o + length];
    var ivec := CopyOf(iv);
    var status := SetEncryptKey(t, user, bits, key);
    ghost var e := ScheduleOf(key);
    CbcEncryptInto(t, buf, o, buf, o, length, key, ivec);
    ghost var mid := buf[..];
    EncryptPlaces(t, e, iv, p, was, o, mid, ivec[..]);
    ivec := CopyOf(iv);
    status := SetDecryptKey(t, user, bits, key);
    ghost var d := ScheduleOf(key);
    ghost var c := CbcEncrypt(t, e, iv, p);
    assert buf[o..o + RoundUp(length)] == c;
    CbcDecryptInto(t, buf, o, buf, o, length, key, ivec);
    DecryptLeavesRest(t, d, iv, c, length, mid, o, buf[..], ivec[..]);
    RoundTrip(t, e, d, iv, p);
    assert forall x | 0 <= x < buf.Length && !(o <= x < o + RoundUp(length)) :: buf[..][x] == mid[x] == was[x];
  }
}
