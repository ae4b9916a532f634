/** The code of aes.c that encrypts and decrypts one block through the tables. */
module Aes {
  import opened AesField
  import opened AesCipher
  import opened AesTables

  type Block = b: seq<byte> | |b| == 16 witness seq(16, _ => 0)

  function StateOf(b: Block): (s: State) {
    State(Col(b[0], b[1], b[2], b[3]), Col(b[4], b[5], b[6], b[7]),
          Col(b[8], b[9], b[10], b[11]), Col(b[12], b[13], b[14], b[15]))
  }

  function BytesOf(s: State): (b: Block) {
    [s.c0.a, s.c0.b, s.c0.c, s.c0.d, s.c1.a, s.c1.b, s.c1.c, s.c1.d,
     s.c2.a, s.c2.b, s.c2.c, s.c2.d, s.c3.a, s.c3.b, s.c3.c, s.c3.d]
  }

  lemma BlockRoundTrip(b: Block, s: State)
    ensures StateOf(BytesOf(s)) == s
    ensures BytesOf(StateOf(b)) == b
  {
  }

  function AbsState(w0: word, w1: word, w2: word, w3: word): (s: State) {
    State(Abs(w0), Abs(w1), Abs(w2), Abs(w3))
  }

  function KeyAt(rk: seq<word>, i: nat): (k: State)
    requires 4 * i + 4 <= |rk|
  {
    AbsState(rk[4 * i], rk[4 * i + 1], rk[4 * i + 2], rk[4 * i + 3])
  }

  /** The round keys that an expanded key holds. */
  function KeysOf(rk: seq<word>, rounds: nat): (keys: seq<State>)
    requires |rk| >= 4 * (rounds + 1)
    ensures |keys| == rounds + 1
  {
    seq(rounds + 1, i requires 0 <= i <= rounds => KeyAt(rk, i))
  }

  lemma KeyWords(rk: seq<word>, rounds: nat, i: nat)
    requires i <= rounds && |rk| >= 4 * (rounds + 1)
    ensures AbsState(rk[4 * i], rk[4 * i + 1], rk[4 * i + 2], rk[4 * i + 3]) == KeysOf(rk, rounds)[i]
  {
  }

  /** GETU32 on a column of the block, and the initial key. */
  method LoadCol(p: Col, k: word) returns (w: word)
    ensures Abs(w) == AddCol(p, Abs(k))
  {
    w := Word(p) ^ k;
    hide Abs, Word, AddCol;
    AbsXor(Word(p), k);
    AbsWord(p);
  }

  method Load(input: Block, k0: word, k1: word, k2: word, k3: word)
    returns (s0: word, s1: word, s2: word, s3: word)
    ensures AbsState(s0, s1, s2, s3) == AddRoundKey(StateOf(input), AbsState(k0, k1, k2, k3))
  {
    hide Abs, AddCol;
    s0 := LoadCol(Col(input[0], input[1], input[2], input[3]), k0);
    s1 := LoadCol(Col(input[4], input[5], input[6], input[7]), k1);
    s2 := LoadCol(Col(input[8], input[9], input[10], input[11]), k2);
    s3 := LoadCol(Col(input[12], input[13], input[14], input[15]), k3);
  }

  /** PUTU32 on the four words. */
  method Store(s0: word, s1: word, s2: word, s3: word) returns (output: Block)
    ensures output == BytesOf(AbsState(s0, s1, s2, s3))
  {
    hide B0, B1, B2, B3;
    output := [B0(s0), B1(s0), B2(s0), B3(s0), B0(s1), B1(s1), B2(s1), B3(s1),
               B0(s2), B1(s2), B2(s2), B3(s2), B0(s3), B1(s3), B2(s3), B3(s3)];
  }

  /** One full round of encryption on four words. */
  method EncRound(s0: word, s1: word, s2: word, s3: word, k0: word, k1: word, k2: word, k3: word)
    returns (t0: word, t1: word, t2: word, t3: word)
    ensures AbsState(t0, t1, t2, t3) == Round(AbsState(s0, s1, s2, s3), AbsState(k0, k1, k2, k3))
  {
    t0 := EncRow(B0(s0), B1(s1), B2(s2), B3(s3), k0);
    t1 := EncRow(B0(s1), B1(s2), B2(s3), B3(s0), k1);
    t2 := EncRow(B0(s2), B1(s3), B2(s0), B3(s1), k2);
    t3 := EncRow(B0(s3), B1(s0), B2(s1), B3(s2), k3);
    hide EncRow, B0, B1, B2, B3, S, Mix, AddCol;
    EncRowMixes(B0(s0), B1(s1), B2(s2), B3(s3), k0);
    EncRowMixes(B0(s1), B1(s2), B2(s3), B3(s0), k1);
    EncRowMixes(B0(s2), B1(s3), B2(s0), B3(s1), k2);
    EncRowMixes(B0(s3), B1(s0), B2(s1), B3(s2), k3);
  }

  method EncLastRound(s0: word, s1: word, s2: word, s3: word, k0: word, k1: word, k2: word, k3: word)
    returns (t0: word, t1: word, t2: word, t3: word)
    ensures AbsState(t0, t1, t2, t3) == LastRound(AbsState(s0, s1, s2, s3), AbsState(k0, k1, k2, k3))
  {
    t0 := EncLast(B0(s0), B1(s1), B2(s2), B3(s3), k0);
    t1 := EncLast(B0(s1), B1(s2), B2(s3), B3(s0), k1);
    t2 := EncLast(B0(s2), B1(s3), B2(s0), B3(s1), k2);
    t3 := EncLast(B0(s3), B1(s0), B2(s1), B3(s2), k3);
    hide EncLast, B0, B1, B2, B3, S, AddCol;
    EncLastSubs(B0(s0), B1(s1), B2(s2), B3(s3), k0);
    EncLastSubs(B0(s1), B1(s2), B2(s3), B3(s0), k1);
    EncLastSubs(B0(s2), B1(s3), B2(s0), B3(s1), k2);
    EncLastSubs(B0(s3), B1(s0), B2(s1), B3(s2), k3);
  }

  /** The loop of AES_encrypt, two rounds a turn: all rounds but the last. */
  method EncRounds(w0: word, w1: word, w2: word, w3: word, rk: seq<word>, rounds: nat, ghost st: State)
    returns (t0: word, t1: word, t2: word, t3: word)
    requires rounds >= 2 && rounds % 2 == 0 && |rk| >= 4 * (rounds + 1)
    requires AbsState(w0, w1, w2, w3) == Rounds(st, KeysOf(rk, rounds), 0)
    ensures AbsState(t0, t1, t2, t3) == Rounds(st, KeysOf(rk, rounds), rounds - 1)
  {
    hide AbsState, Round, KeysOf;
    var s0, s1, s2, s3 := w0, w1, w2, w3;
    var r, p := rounds / 2, 0;
    while true
      invariant 1 <= r <= rounds / 2 && p == 4 * (rounds - 2 * r)
      invariant AbsState(s0, s1, s2, s3) == Rounds(st, KeysOf(rk, rounds), rounds - 2 * r)
      decreases r
    {
      KeyWords(rk, rounds, rounds - 2 * r + 1);
      t0, t1, t2, t3 := EncRound(s0, s1, s2, s3, rk[p + 4], rk[p + 5], rk[p + 6], rk[p + 7]);
      p := p + 8;
      r := r - 1;
      if r == 0 {
        return;
      }
      KeyWords(rk, rounds, rounds - 2 * r);
      s0, s1, s2, s3 := EncRound(t0, t1, t2, t3, rk[p], rk[p + 1], rk[p + 2], rk[p + 3]);
    }
  }

  /** AES_encrypt: the table rounds and a last round through Te4 compute the reference cipher. */
  method Encrypt(input: Block, rk: seq<word>, rounds: nat) returns (output: Block)
    requires rounds >= 2 && rounds % 2 == 0 && |rk| >= 4 * (rounds + 1)
    ensures output == BytesOf(Cipher(StateOf(input), KeysOf(rk, rounds)))
  {
    hide AbsState, Round, KeysOf, StateOf, BytesOf, AddRoundKey, LastRound;
    KeyWords(rk, rounds, 0);
    KeyWords(rk, rounds, rounds);
    var p := 4 * rounds;
    var s0, s1, s2, s3 := Load(input, rk[0], rk[1], rk[2], rk[3]);
    s0, s1, s2, s3 := EncRounds(s0, s1, s2, s3, rk, rounds, StateOf(input));
    s0, s1, s2, s3 := EncLastRound(s0, s1, s2, s3, rk[p], rk[p + 1], rk[p + 2], rk[p + 3]);
    output := Store(s0, s1, s2, s3);
  }

  /** One full round of decryption on four words. */
  method DecRound(s0: word, s1: word, s2: word, s3: word, k0: word, k1: word, k2: word, k3: word)
    returns (t0: word, t1: word, t2: word, t3: word)
    ensures AbsState(t0, t1, t2, t3) == InvRound(AbsState(s0, s1, s2, s3), AbsState(k0, k1, k2, k3))
  {
    t0 := DecRow(B0(s0), B1(s3), B2(s2), B3(s1), k0);
    t1 := DecRow(B0(s1), B1(s0), B2(s3), B3(s2), k1);
    t2 := DecRow(B0(s2), B1(s1), B2(s0), B3(s3), k2);
    t3 := DecRow(B0(s3), B1(s2), B2(s1), B3(s0), k3);
    hide DecRow, B0, B1, B2, B3, Si, InvMix, AddCol;
    DecRowMixes(B0(s0), B1(s3), B2(s2), B3(s1), k0);
    DecRowMixes(B0(s1), B1(s0), B2(s3), B3(s2), k1);
    DecRowMixes(B0(s2), B1(s1), B2(s0), B3(s3), k2);
    DecRowMixes(B0(s3), B1(s2), B2(s1), B3(s0), k3);
  }

  method DecLastRound(s0: word, s1: word, s2: word, s3: word, k0: word, k1: word, k2: word, k3: word)
    returns (t0: word, t1: word, t2: word, t3: word)
    ensures AbsState(t0, t1, t2, t3) == InvLastRound(AbsState(s0, s1, s2, s3), AbsState(k0, k1, k2, k3))
  {
    t0 := DecLast(B0(s0), B1(s3), B2(s2), B3(s1), k0);
    t1 := DecLast(B0(s1), B1(s0), B2(s3), B3(s2), k1);
    t2 := DecLast(B0(s2), B1(s1), B2(s0), B3(s3), k2);
    t3 := DecLast(B0(s3), B1(s2), B2(s1), B3(s0), k3);
    hide DecLast, B0, B1, B2, B3, Si, AddCol;
    DecLastSubs(B0(s0), B1(s3), B2(s2), B3(s1), k0);
    DecLastSubs(B0(s1), B1(s0), B2(s3), B3(s2), k1);
    DecLastSubs(B0(s2), B1(s1), B2(s0), B3(s3), k2);
    DecLastSubs(B0(s3), B1(s2), B2(s1), B3(s0), k3);
  }

  /** The loop of AES_decrypt, two rounds a turn: all rounds but the last. */
  method DecRounds(w0: word, w1: word, w2: word, w3: word, rk: seq<word>, rounds: nat, ghost st: State)
    returns (t0: word, t1: word, t2: word, t3: word)
    requires rounds >= 2 && rounds % 2 == 0 && |rk| >= 4 * (rounds + 1)
    requires AbsState(w0, w1, w2, w3) == InvRounds(st, KeysOf(rk, rounds), 0)
    ensures AbsState(t0, t1, t2, t3) == InvRounds(st, KeysOf(rk, rounds), rounds - 1)
  {
    hide AbsState, InvRound, KeysOf;
    var s0, s1, s2, s3 := w0, w1, w2, w3;
    var r, p := rounds / 2, 0;
    while true
      invariant 1 <= r <= rounds / 2 && p == 4 * (rounds - 2 * r)
      invariant AbsState(s0, s1, s2, s3) == InvRounds(st, KeysOf(rk, rounds), rounds - 2 * r)
      decreases r
    {
      KeyWords(rk, rounds, rounds - 2 * r + 1);
      t0, t1, t2, t3 := DecRound(s0, s1, s2, s3, rk[p + 4], rk[p + 5], rk[p + 6], rk[p + 7]);
      p := p + 8;
      r := r - 1;
      if r == 0 {
        return;
      }
      KeyWords(rk, rounds, rounds - 2 * r);
      s0, s1, s2, s3 := DecRound(t0, t1, t2, t3, rk[p], rk[p + 1], rk[p + 2], rk[p + 3]);
    }
  }

  /** AES_decrypt: the table rounds and a last round through Td4 compute the equivalent inverse cipher. */
  method Decrypt(input: Block, rk: seq<word>, rounds: nat) returns (output: Block)
    requires rounds >= 2 && rounds % 2 == 0 && |rk| >= 4 * (rounds + 1)
    ensures output == BytesOf(EqInvCipher(StateOf(input), KeysOf(rk, rounds)))
  {
    hide AbsState, InvRound, KeysOf, StateOf, BytesOf, AddRoundKey, InvLastRound;
    KeyWords(rk, rounds, 0);
    KeyWords(rk, rounds, rounds);
    var p := 4 * rounds;
    var s0, s1, s2, s3 := Load(input, rk[0], rk[1], rk[2], rk[3]);
    s0, s1, s2, s3 := DecRounds(s0, s1, s2, s3, rk, rounds, StateOf(input));
    s0, s1, s2, s3 := DecLastRound(s0, s1, s2, s3, rk[p], rk[p + 1], rk[p + 2], rk[p + 3]);
    output := Store(s0, s1, s2, s3);
  }
}
