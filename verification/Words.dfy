/** Bytes and 32-bit words. */
module Words {

  /** u8 and u32; the wrappers keep bit-level reasoning inside the lemmas that need it. */
  datatype Byte = Byte(v: bv8)
  datatype Word = Word(v: bv32)

  function Add(a: Byte, b: Byte): Byte { Byte(a.v ^ b.v) }
  function Xor(a: Word, b: Word): Word { Word(a.v ^ b.v) }

  /** A word from its bytes, most significant first. */
  function Pack(a: Byte, b: Byte, c: Byte, d: Byte): Word {
    Word(((a.v as bv32) << 24) | ((b.v as bv32) << 16) | ((c.v as bv32) << 8) | (d.v as bv32))
  }

  function B0(w: Word): Byte { Byte((w.v >> 24) as bv8) }
  function B1(w: Word): Byte { Byte(((w.v >> 16) & 0xff) as bv8) }
  function B2(w: Word): Byte { Byte(((w.v >> 8) & 0xff) as bv8) }
  function B3(w: Word): Byte { Byte((w.v & 0xff) as bv8) }

  lemma {:induction false} PackBytes(w: Word)
    ensures Pack(B0(w), B1(w), B2(w), B3(w)) == w
  {
  }

  lemma {:induction false} BytesPack(a: Byte, b: Byte, c: Byte, d: Byte)
    ensures var w := Pack(a, b, c, d);
            B0(w) == a && B1(w) == b && B2(w) == c && B3(w) == d
  {
  }

  lemma {:induction false} XorByte0(v: Word, w: Word)
    ensures B0(Xor(v, w)) == Add(B0(v), B0(w))
  {
  }

  lemma {:induction false} XorByte1(v: Word, w: Word)
    ensures B1(Xor(v, w)) == Add(B1(v), B1(w))
  {
  }

  lemma {:induction false} XorByte2(v: Word, w: Word)
    ensures B2(Xor(v, w)) == Add(B2(v), B2(w))
  {
  }

  lemma {:induction false} XorByte3(v: Word, w: Word)
    ensures B3(Xor(v, w)) == Add(B3(v), B3(w))
  {
  }

  lemma {:induction false} XorBytes(v: Word, w: Word)
    ensures B0(Xor(v, w)) == Add(B0(v), B0(w)) && B1(Xor(v, w)) == Add(B1(v), B1(w))
    ensures B2(Xor(v, w)) == Add(B2(v), B2(w)) && B3(Xor(v, w)) == Add(B3(v), B3(w))
  {
    hide Xor, Add, B0, B1, B2, B3;
    XorByte0(v, w);
    XorByte1(v, w);
    XorByte2(v, w);
    XorByte3(v, w);
  }

  lemma {:induction false} PackXor(a: Byte, b: Byte, c: Byte, d: Byte, p: Byte, q: Byte, r: Byte, s: Byte)
    ensures Pack(Add(a, p), Add(b, q), Add(c, r), Add(d, s)) == Xor(Pack(a, b, c, d), Pack(p, q, r, s))
  {
  }

  lemma {:induction false} XorTwice(v: Word, k: Word)
    ensures Xor(Xor(v, k), k) == v
  {
  }

  /** A word masked to one of its bytes. */
  function And(w: Word, mask: bv32): Word { Word(w.v & mask) }

  function PackBits(a: bv8, b: bv8, c: bv8, d: bv8): bv32 {
    ((a as bv32) << 24) | ((b as bv32) << 16) | ((c as bv32) << 8) | (d as bv32)
  }

  /** A word read from four bytes, joined by exclusive or. */
  function GetU32(a: Byte, b: Byte, c: Byte, d: Byte): (w: Word)
    ensures w == Pack(a, b, c, d)
  {
    GetBits(a.v, b.v, c.v, d.v);
    Word(((a.v as bv32) << 24) ^ ((b.v as bv32) << 16) ^ ((c.v as bv32) << 8) ^ (d.v as bv32))
  }

  lemma {:induction false} GetBits(a: bv8, b: bv8, c: bv8, d: bv8)
    ensures (((a as bv32) << 24) ^ ((b as bv32) << 16) ^ ((c as bv32) << 8) ^ (d as bv32)) == PackBits(a, b, c, d)
  {
  }

  lemma {:induction false} XorAssoc(a: Word, b: Word, c: Word)
    ensures Xor(Xor(a, b), c) == Xor(a, Xor(b, c))
  {
  }

  function WordBytes(w: Word): (b: seq<Byte>)
    ensures |b| == 4
  {
    [B0(w), B1(w), B2(w), B3(w)]
  }

  function WordAt(b: seq<Byte>, i: nat): Word
    requires i + 4 <= |b|
  {
    Pack(b[i], b[i + 1], b[i + 2], b[i + 3])
  }

  lemma {:induction false} WordOfBytes(w: Word, b: seq<Byte>, i: nat)
    requires i + 4 <= |b| && b[i..i + 4] == WordBytes(w)
    ensures WordAt(b, i) == w
  {
    hide Pack, B0, B1, B2, B3;
    var c := b[i..i + 4];
    assert c[0] == b[i] && c[1] == b[i + 1] && c[2] == b[i + 2] && c[3] == b[i + 3];
    PackBytes(w);
  }

  lemma {:induction false} BytesOfWord(b: seq<Byte>, i: nat)
    requires i + 4 <= |b|
    ensures WordBytes(WordAt(b, i)) == b[i..i + 4]
  {
  }
}
