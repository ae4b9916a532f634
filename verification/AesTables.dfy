/** The 32-bit tables of aes.c, defined from the S-box by the equations at its head, and what one
    table-driven row computes. */
module AesTables {
  import opened AesField
  import opened AesCipher

  type word = bv32

  function Word(p: Col): (w: word) {
    ((p.a as word) << 24) | ((p.b as word) << 16) | ((p.c as word) << 8) | (p.d as word)
  }

  function B0(w: word): (x: byte) { (w >> 24) as byte }
  function B1(w: word): (x: byte) { ((w >> 16) & 0xff) as byte }
  function B2(w: word): (x: byte) { ((w >> 8) & 0xff) as byte }
  function B3(w: word): (x: byte) { (w & 0xff) as byte }

  /** The column that a word holds. */
  function Abs(w: word): (p: Col) { Col(B0(w), B1(w), B2(w), B3(w)) }

  lemma AbsWord(p: Col) ensures Abs(Word(p)) == p {}
  lemma WordAbs(w: word) ensures Word(Abs(w)) == w {}

  lemma AbsXor(v: word, w: word)
    ensures Abs(v ^ w) == AddCol(Abs(v), Abs(w))
  {
  }

  function Te0(x: byte): (w: word) { Word(MixA(S(x))) }
  function Te1(x: byte): (w: word) { Word(MixB(S(x))) }
  function Te2(x: byte): (w: word) { Word(MixC(S(x))) }
  function Te3(x: byte): (w: word) { Word(MixD(S(x))) }
  function Te4(x: byte): (w: word) { Word(Col(S(x), S(x), S(x), S(x))) }

  function Td0(x: byte): (w: word) { Word(Col(Me(Si(x)), M9(Si(x)), Md(Si(x)), Mb(Si(x)))) }
  function Td1(x: byte): (w: word) { Word(Col(Mb(Si(x)), Me(Si(x)), M9(Si(x)), Md(Si(x)))) }
  function Td2(x: byte): (w: word) { Word(Col(Md(Si(x)), Mb(Si(x)), Me(Si(x)), M9(Si(x)))) }
  function Td3(x: byte): (w: word) { Word(Col(M9(Si(x)), Md(Si(x)), Mb(Si(x)), Me(Si(x)))) }
  function Td4(x: byte): (w: word) { Word(Col(Si(x), Si(x), Si(x), Si(x))) }

  lemma XorRegroups(a: word, b: word, c: word, d: word) ensures a ^ b ^ c ^ d == (a ^ b) ^ (c ^ d) {}

  lemma AbsXor4(a: word, b: word, c: word, d: word)
    ensures Abs(a ^ b ^ c ^ d) == SumCol(Abs(a), Abs(b), Abs(c), Abs(d))
  {
    hide Abs, Add;
    XorRegroups(a, b, c, d);
    AbsXor(a ^ b, c ^ d);
    AbsXor(a, b);
    AbsXor(c, d);
  }

  function Xor(a: word, b: word, c: word, d: word, k: word): (w: word) {
    a ^ b ^ c ^ d ^ k
  }

  lemma XorRow(a: word, b: word, c: word, d: word, k: word)
    ensures Abs(Xor(a, b, c, d, k)) == AddCol(SumCol(Abs(a), Abs(b), Abs(c), Abs(d)), Abs(k))
  {
    hide Abs, SumCol, AddCol;
    AbsXor(a ^ b ^ c ^ d, k);
    AbsXor4(a, b, c, d);
  }

  /** One row of a full round: four look-ups and a key word. */
  function EncRow(x: byte, y: byte, z: byte, u: byte, k: word): (w: word) {
    Xor(Te0(x), Te1(y), Te2(z), Te3(u), k)
  }

  lemma EncRowMixes(x: byte, y: byte, z: byte, u: byte, k: word)
    ensures Abs(EncRow(x, y, z, u, k)) == AddCol(Mix(SubCol(Col(x, y, z, u))), Abs(k))
  {
    hide Xor, Abs, Word, MixA, MixB, MixC, MixD, Mix, S, SumCol, AddCol;
    AbsWord(MixA(S(x)));
    AbsWord(MixB(S(y)));
    AbsWord(MixC(S(z)));
    AbsWord(MixD(S(u)));
    XorRow(Te0(x), Te1(y), Te2(z), Te3(u), k);
    MixOfBytes(SubCol(Col(x, y, z, u)));
  }

  function DecRow(x: byte, y: byte, z: byte, u: byte, k: word): (w: word) {
    Xor(Td0(x), Td1(y), Td2(z), Td3(u), k)
  }

  lemma InvMixOfBytes(p: Col)
    ensures InvMix(p) == SumCol(Col(Me(p.a), M9(p.a), Md(p.a), Mb(p.a)), Col(Mb(p.b), Me(p.b), M9(p.b), Md(p.b)),
                                Col(Md(p.c), Mb(p.c), Me(p.c), M9(p.c)), Col(M9(p.d), Md(p.d), Mb(p.d), Me(p.d)))
  {
    hide M9, Mb, Md, Me, Sum;
  }

  lemma DecRowMixes(x: byte, y: byte, z: byte, u: byte, k: word)
    ensures Abs(DecRow(x, y, z, u, k)) == AddCol(InvMix(InvSubCol(Col(x, y, z, u))), Abs(k))
  {
    hide Xor, Abs, Word, InvMix, Si, SumCol, AddCol, M9, Mb, Md, Me;
    XorRow(Td0(x), Td1(y), Td2(z), Td3(u), k);
    AbsWord(Col(Me(Si(x)), M9(Si(x)), Md(Si(x)), Mb(Si(x))));
    AbsWord(Col(Mb(Si(y)), Me(Si(y)), M9(Si(y)), Md(Si(y))));
    AbsWord(Col(Md(Si(z)), Mb(Si(z)), Me(Si(z)), M9(Si(z))));
    AbsWord(Col(M9(Si(u)), Md(Si(u)), Mb(Si(u)), Me(Si(u))));
    InvMixOfBytes(InvSubCol(Col(x, y, z, u)));
  }

  /** Four words with equal bytes, one byte kept of each. */
  function Gather(a: word, b: word, c: word, d: word): (w: word) {
    (a & 0xff000000) ^ (b & 0x00ff0000) ^ (c & 0x0000ff00) ^ (d & 0x000000ff)
  }

  lemma GatherTakes(a: word, b: word, c: word, d: word)
    ensures Abs(Gather(a, b, c, d)) == Col(B0(a), B1(b), B2(c), B3(d))
  {
  }

  /** One row of the last round. */
  function EncLast(x: byte, y: byte, z: byte, u: byte, k: word): (w: word) {
    Gather(Te4(x), Te4(y), Te4(z), Te4(u)) ^ k
  }

  lemma EncLastSubs(x: byte, y: byte, z: byte, u: byte, k: word)
    ensures Abs(EncLast(x, y, z, u, k)) == AddCol(SubCol(Col(x, y, z, u)), Abs(k))
  {
    hide Gather, Word, S, AddCol, B0, B1, B2, B3;
    AbsWord(Col(S(x), S(x), S(x), S(x)));
    AbsWord(Col(S(y), S(y), S(y), S(y)));
    AbsWord(Col(S(z), S(z), S(z), S(z)));
    AbsWord(Col(S(u), S(u), S(u), S(u)));
    GatherTakes(Te4(x), Te4(y), Te4(z), Te4(u));
    AbsXor(Gather(Te4(x), Te4(y), Te4(z), Te4(u)), k);
  }

  function DecLast(x: byte, y: byte, z: byte, u: byte, k: word): (w: word) {
    Gather(Td4(x), Td4(y), Td4(z), Td4(u)) ^ k
  }

  lemma DecLastSubs(x: byte, y: byte, z: byte, u: byte, k: word)
    ensures Abs(DecLast(x, y, z, u, k)) == AddCol(InvSubCol(Col(x, y, z, u)), Abs(k))
  {
    hide Gather, Word, Si, AddCol, B0, B1, B2, B3;
    AbsWord(Col(Si(x), Si(x), Si(x), Si(x)));
    AbsWord(Col(Si(y), Si(y), Si(y), Si(y)));
    AbsWord(Col(Si(z), Si(z), Si(z), Si(z)));
    AbsWord(Col(Si(u), Si(u), Si(u), Si(u)));
    GatherTakes(Td4(x), Td4(y), Td4(z), Td4(u));
    AbsXor(Gather(Td4(x), Td4(y), Td4(z), Td4(u)), k);
  }
}
