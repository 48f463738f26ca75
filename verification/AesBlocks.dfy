/** Encryption and decryption of one block of bytes under a key object. */
module AesBlocks {
  import opened Words
  import opened AesTables
  import opened AesCipher
  import opened AesKeys

  function BytesOf(s: Block): (b: seq<Byte>)
    ensures |b| == 16
  {
    WordBytes(s.w0) + WordBytes(s.w1) + WordBytes(s.w2) + WordBytes(s.w3)
  }

  function StateOf(b: seq<Byte>): Block
    requires |b| == 16
  {
    Block(WordAt(b, 0), WordAt(b, 4), WordAt(b, 8), WordAt(b, 12))
  }

  lemma {:induction false} StateOfBytes(s: Block)
    ensures StateOf(BytesOf(s)) == s
  {
    hide WordBytes, WordAt;
    var b := BytesOf(s);
    assert b[0..4] == WordBytes(s.w0) && b[4..8] == WordBytes(s.w1);
    assert b[8..12] == WordBytes(s.w2) && b[12..16] == WordBytes(s.w3);
    WordOfBytes(s.w0, b, 0);
    WordOfBytes(s.w1, b, 4);
    WordOfBytes(s.w2, b, 8);
    WordOfBytes(s.w3, b, 12);
  }

  lemma {:induction false} BytesOfState(b: seq<Byte>)
    requires |b| == 16
    ensures BytesOf(StateOf(b)) == b
  {
    hide WordBytes, WordAt;
    BytesOfWord(b, 0);
    BytesOfWord(b, 4);
    BytesOfWord(b, 8);
    BytesOfWord(b, 12);
    assert b == b[0..4] + b[4..8] + b[8..12] + b[12..16];
  }

  /** The number of rounds and the round keys that go with it. */
  datatype Schedule = Schedule(rounds: nat, w: seq<Word>) {
    predicate Valid() {
      1 <= rounds && |w| == 4 * rounds + 4
    }
  }

  function EncryptBytes(t: SBox, k: Schedule, b: seq<Byte>): (c: seq<Byte>)
    requires k.Valid() && |b| == 16
    ensures |c| == 16
  {
    BytesOf(Cipher(t, k.rounds, k.w, StateOf(b)))
  }

  function DecryptBytes(t: SBox, k: Schedule, c: seq<Byte>): (b: seq<Byte>)
    requires k.Valid() && |c| == 16
    ensures |b| == 16
  {
    BytesOf(EqInvCipher(t, k.rounds, k.w, StateOf(c)))
  }

  /** d is the decryption schedule of e. */
  ghost predicate Inverse(t: SBox, e: Schedule, d: Schedule) {
    Undoes(t) && e.Valid() && d.Valid() && d.rounds == e.rounds && DecryptSchedule(e.rounds, e.w, d.w)
  }

  lemma {:induction false} DecryptUndoesEncrypt(t: SBox, e: Schedule, d: Schedule, b: seq<Byte>)
    requires Inverse(t, e, d) && |b| == 16
    ensures DecryptBytes(t, d, EncryptBytes(t, e, b)) == b
  {
    hide BytesOf, StateOf, Cipher, EqInvCipher, Undoes, DecryptSchedule;
    StateOfBytes(Cipher(t, e.rounds, e.w, StateOf(b)));
    EqInvCipherUndoes(t, e.rounds, e.w, d.w, StateOf(b));
    BytesOfState(b);
  }

  /** The schedule a key object holds. */
  ghost function ScheduleOf(key: AesKey): (k: Schedule)
    requires key.Ready()
    reads key, key.rdKey
    ensures k.Valid()
  {
    Schedule(key.rounds, key.Schedule())
  }

  /** AES_encrypt on the four words of the state. */
  method EncryptState(t: SBox, key: AesKey, x: Block) returns (c: Block)
    requires key.Ready()
    ensures c == Cipher(t, key.rounds, key.Schedule(), x)
  {
    hide TeWord, TeLast, AddRoundKey, MixColumns, ShiftRows, SubBytes;
    var rk := key.rdKey;
    ghost var nr, w := key.rounds, key.Schedule();
    var s0, s1, s2, s3 := Xor(x.w0, rk[0]), Xor(x.w1, rk[1]), Xor(x.w2, rk[2]), Xor(x.w3, rk[3]);
    FirstRound(t, w, x);
    var t0, t1, t2, t3 := s0, s1, s2, s3;
    var r, b := key.rounds / 2, 0;
    while true
      invariant 1 <= r <= nr / 2 && b == 4 * (nr - 2 * r)
      invariant Block(s0, s1, s2, s3) == Rounds(t, w, x, nr - 2 * r)
      decreases r
    {
      TeRound(t, Block(s0, s1, s2, s3), RoundKey(w, nr - 2 * r + 1));
      t0, t1, t2, t3 := TeWord(t, s0, s1, s2, s3, rk[b + 4]), TeWord(t, s1, s2, s3, s0, rk[b + 5]),
        TeWord(t, s2, s3, s0, s1, rk[b + 6]), TeWord(t, s3, s0, s1, s2, rk[b + 7]);
      assert Block(t0, t1, t2, t3) == Rounds(t, w, x, nr - 2 * r + 1);
      b := b + 8;
      r := r - 1;
      if r == 0 {
        break;
      }
      TeRound(t, Block(t0, t1, t2, t3), RoundKey(w, nr - 2 * r));
      s0, s1, s2, s3 := TeWord(t, t0, t1, t2, t3, rk[b]), TeWord(t, t1, t2, t3, t0, rk[b + 1]),
        TeWord(t, t2, t3, t0, t1, rk[b + 2]), TeWord(t, t3, t0, t1, t2, rk[b + 3]);
    }
    TeRound(t, Block(t0, t1, t2, t3), RoundKey(w, nr));
    s0 := TeLast(t, t0, t1, t2, t3, rk[b]);
    s1 := TeLast(t, t1, t2, t3, t0, rk[b + 1]);
    s2 := TeLast(t, t2, t3, t0, t1, rk[b + 2]);
    s3 := TeLast(t, t3, t0, t1, t2, rk[b + 3]);
    c := Block(s0, s1, s2, s3);
  }

  lemma {:induction false} FirstRound(t: SBox, w: seq<Word>, x: Block)
    requires 4 <= |w|
    ensures var s := Block(Xor(x.w0, w[0]), Xor(x.w1, w[1]), Xor(x.w2, w[2]), Xor(x.w3, w[3]));
            s == Rounds(t, w, x, 0) && s == EqRounds(t, w, x, 0)
  {
  }

  /** AES_decrypt on the four words of the state. */
  method DecryptState(t: SBox, key: AesKey, x: Block) returns (c: Block)
    requires key.Ready()
    ensures c == EqInvCipher(t, key.rounds, key.Schedule(), x)
  {
    hide TdWord, TdLast, AddRoundKey, InvMixColumns, InvShiftRows, InvSubBytes;
    var rk := key.rdKey;
    ghost var nr, w := key.rounds, key.Schedule();
    var s0, s1, s2, s3 := Xor(x.w0, rk[0]), Xor(x.w1, rk[1]), Xor(x.w2, rk[2]), Xor(x.w3, rk[3]);
    FirstRound(t, w, x);
    var t0, t1, t2, t3 := s0, s1, s2, s3;
    var r, b := key.rounds / 2, 0;
    while true
      invariant 1 <= r <= nr / 2 && b == 4 * (nr - 2 * r)
      invariant Block(s0, s1, s2, s3) == EqRounds(t, w, x, nr - 2 * r)
      decreases r
    {
      TdRound(t, Block(s0, s1, s2, s3), RoundKey(w, nr - 2 * r + 1));
      t0, t1, t2, t3 := TdWord(t, s0, s3, s2, s1, rk[b + 4]), TdWord(t, s1, s0, s3, s2, rk[b + 5]),
        TdWord(t, s2, s1, s0, s3, rk[b + 6]), TdWord(t, s3, s2, s1, s0, rk[b + 7]);
      assert Block(t0, t1, t2, t3) == EqRounds(t, w, x, nr - 2 * r + 1);
      b := b + 8;
      r := r - 1;
      if r == 0 {
        break;
      }
      TdRound(t, Block(t0, t1, t2, t3), RoundKey(w, nr - 2 * r));
      s0, s1, s2, s3 := TdWord(t, t0, t3, t2, t1, rk[b]), TdWord(t, t1, t0, t3, t2, rk[b + 1]),
        TdWord(t, t2, t1, t0, t3, rk[b + 2]), TdWord(t, t3, t2, t1, t0, rk[b + 3]);
    }
    TdRound(t, Block(t0, t1, t2, t3), RoundKey(w, nr));
    s0 := TdLast(t, t0, t3, t2, t1, rk[b]);
    s1 := TdLast(t, t1, t0, t3, t2, rk[b + 1]);
    s2 := TdLast(t, t2, t1, t0, t3, rk[b + 2]);
    s3 := TdLast(t, t3, t2, t1, t0, rk[b + 3]);
    c := Block(s0, s1, s2, s3);
  }

  // ---------------------------------------------------------------------------------------------
  // Bytes in and out; the input and the output may overlap

  /** s with the bytes from o on replaced by b. */
  function Splice(s: seq<Byte>, o: nat, b: seq<Byte>): (r: seq<Byte>)
    requires o + |b| <= |s|
    ensures |r| == |s|
  {
    s[..o] + b + s[o + |b|..]
  }

  lemma {:induction false} SpliceTwice(s: seq<Byte>, o: nat, b: seq<Byte>, c: seq<Byte>)
    requires o + |b| + |c| <= |s|
    ensures Splice(Splice(s, o, b), o + |b|, c) == Splice(s, o, b + c)
  {
  }

  method PutU32(output: array<Byte>, o: nat, w: Word)
    requires o + 4 <= output.Length
    modifies output
    ensures output[..] == Splice(old(output[..]), o, WordBytes(w))
  {
    hide B0, B1, B2, B3;
    output[o] := B0(w);
    output[o + 1] := B1(w);
    output[o + 2] := B2(w);
    output[o + 3] := B3(w);
  }

  method GetBlock(input: array<Byte>, i: nat) returns (s: Block)
    requires i + 16 <= input.Length
    ensures s == StateOf(input[i..i + 16])
  {
    hide Pack;
    s := Block(GetU32(input[i], input[i + 1], input[i + 2], input[i + 3]),
               GetU32(input[i + 4], input[i + 5], input[i + 6], input[i + 7]),
               GetU32(input[i + 8], input[i + 9], input[i + 10], input[i + 11]),
               GetU32(input[i + 12], input[i + 13], input[i + 14], input[i + 15]));
  }

  method PutBlock(output: array<Byte>, o: nat, s: Block)
    requires o + 16 <= output.Length
    modifies output
    ensures output[..] == Splice(old(output[..]), o, BytesOf(s))
  {
    hide WordBytes, Splice;
    ghost var before := output[..];
    var a, b, c, d := WordBytes(s.w0), WordBytes(s.w1), WordBytes(s.w2), WordBytes(s.w3);
    PutU32(output, o, s.w0);
    PutU32(output, o + 4, s.w1);
    SpliceTwice(before, o, a, b);
    PutU32(output, o + 8, s.w2);
    SpliceTwice(before, o, a + b, c);
    PutU32(output, o + 12, s.w3);
    SpliceTwice(before, o, a + b + c, d);
  }

  method Encrypt(t: SBox, input: array<Byte>, i: nat, output: array<Byte>, o: nat, key: AesKey)
    requires key.Ready() && i + 16 <= input.Length && o + 16 <= output.Length
    modifies output
    ensures output[..] == Splice(old(output[..]), o, EncryptBytes(t, old(ScheduleOf(key)), old(input[i..i + 16])))
  {
    hide Splice, StateOf, BytesOf, Cipher;
    var x := GetBlock(input, i);
    var s := EncryptState(t, key, x);
    PutBlock(output, o, s);
  }

  method Decrypt(t: SBox, input: array<Byte>, i: nat, output: array<Byte>, o: nat, key: AesKey)
    requires key.Ready() && i + 16 <= input.Length && o + 16 <= output.Length
    modifies output
    ensures output[..] == Splice(old(output[..]), o, DecryptBytes(t, old(ScheduleOf(key)), old(input[i..i + 16])))
  {
    hide Splice, StateOf, BytesOf, EqInvCipher;
    var x := GetBlock(input, i);
    var s := DecryptState(t, key, x);
    PutBlock(output, o, s);
  }

  /** Any user key: encrypting a block and decrypting it again, in place, gives the block back. */
  method EncryptThenDecrypt(t: SBox, user: seq<Byte>, bits: int, block: array<Byte>, key: AesKey)
    requires Undoes(t) && BitsOk(bits) && bits / 8 <= |user| && block.Length == 16 && key.Valid()
    modifies key, key.rdKey, block
    ensures block[..] == old(block[..])
  {
    hide Undoes, EncryptBytes, DecryptBytes, DecryptSchedule, Expansion, KeyWords, Splice;
    ghost var was := block[..];
    var status := SetEncryptKey(t, user, bits, key);
    ghost var e := ScheduleOf(key);
    assert block[0..16] == was;
    Encrypt(t, block, 0, block, 0, key);
    ghost var c := EncryptBytes(t, e, was);
    SpliceAll(was, c);
    status := SetDecryptKey(t, user, bits, key);
    ghost var d := ScheduleOf(key);
    assert block[0..16] == c;
    Decrypt(t, block, 0, block, 0, key);
    SpliceAll(c, DecryptBytes(t, d, c));
    DecryptUndoesEncrypt(t, e, d, was);
  }

  lemma {:induction false} SpliceAll(s: seq<Byte>, b: seq<Byte>)
    requires |b| == |s|
    ensures Splice(s, 0, b) == b
  {
  }
}
