/** The reference cipher of section 5.1 of FIPS 197 and the equivalent inverse cipher of section
    5.3.5, for any round keys and any number of rounds. */
module AesCipher {
  import opened AesField

  /** The state, by columns. */
  datatype State = State(c0: Col, c1: Col, c2: Col, c3: Col)

  function SubCol(p: Col): (r: Col) { Col(S(p.a), S(p.b), S(p.c), S(p.d)) }
  function InvSubCol(p: Col): (r: Col) { Col(Si(p.a), Si(p.b), Si(p.c), Si(p.d)) }

  function SubBytes(s: State): (r: State) {
    State(SubCol(s.c0), SubCol(s.c1), SubCol(s.c2), SubCol(s.c3))
  }

  function InvSubBytes(s: State): (r: State) {
    State(InvSubCol(s.c0), InvSubCol(s.c1), InvSubCol(s.c2), InvSubCol(s.c3))
  }

  /** Row i of the state turns left by i columns. */
  function ShiftRows(s: State): (r: State) {
    State(Col(s.c0.a, s.c1.b, s.c2.c, s.c3.d), Col(s.c1.a, s.c2.b, s.c3.c, s.c0.d),
          Col(s.c2.a, s.c3.b, s.c0.c, s.c1.d), Col(s.c3.a, s.c0.b, s.c1.c, s.c2.d))
  }

  function InvShiftRows(s: State): (r: State) {
    State(Col(s.c0.a, s.c3.b, s.c2.c, s.c1.d), Col(s.c1.a, s.c0.b, s.c3.c, s.c2.d),
          Col(s.c2.a, s.c1.b, s.c0.c, s.c3.d), Col(s.c3.a, s.c2.b, s.c1.c, s.c0.d))
  }

  function MixColumns(s: State): (r: State) {
    State(Mix(s.c0), Mix(s.c1), Mix(s.c2), Mix(s.c3))
  }

  function InvMixColumns(s: State): (r: State) {
    State(InvMix(s.c0), InvMix(s.c1), InvMix(s.c2), InvMix(s.c3))
  }

  function AddRoundKey(s: State, k: State): (r: State) {
    State(AddCol(s.c0, k.c0), AddCol(s.c1, k.c1), AddCol(s.c2, k.c2), AddCol(s.c3, k.c3))
  }

  // ---------------------------------------------------------------- ciphers

  function Round(s: State, k: State): (r: State) {
    AddRoundKey(MixColumns(ShiftRows(SubBytes(s))), k)
  }

  function LastRound(s: State, k: State): (r: State) {
    AddRoundKey(ShiftRows(SubBytes(s)), k)
  }

  /** The state after the initial key and i full rounds. */
  function Rounds(s: State, keys: seq<State>, i: nat): (r: State)
    requires i < |keys|
  {
    if i == 0 then AddRoundKey(s, keys[0]) else Round(Rounds(s, keys, i - 1), keys[i])
  }

  function Cipher(s: State, keys: seq<State>): (r: State)
    requires |keys| >= 2
  {
    LastRound(Rounds(s, keys, |keys| - 2), keys[|keys| - 1])
  }

  function InvRound(s: State, k: State): (r: State) {
    AddRoundKey(InvMixColumns(InvShiftRows(InvSubBytes(s))), k)
  }

  function InvLastRound(s: State, k: State): (r: State) {
    AddRoundKey(InvShiftRows(InvSubBytes(s)), k)
  }

  function InvRounds(s: State, keys: seq<State>, i: nat): (r: State)
    requires i < |keys|
  {
    if i == 0 then AddRoundKey(s, keys[0]) else InvRound(InvRounds(s, keys, i - 1), keys[i])
  }

  /** The equivalent inverse cipher: the same shape as the cipher, under the decryption schedule. */
  function EqInvCipher(s: State, keys: seq<State>): (r: State)
    requires |keys| >= 2
  {
    InvLastRound(InvRounds(s, keys, |keys| - 2), keys[|keys| - 1])
  }

  /** The decryption schedule: round keys in reverse, InvMixColumns on all but the first and the last. */
  function DecKey(keys: seq<State>, i: nat): (k: State)
    requires i < |keys|
  {
    var k := keys[|keys| - 1 - i];
    if i == 0 || i == |keys| - 1 then k else InvMixColumns(k)
  }

  function DecKeys(keys: seq<State>): (r: seq<State>)
    ensures |r| == |keys|
    ensures forall i :: 0 <= i < |keys| ==> r[i] == DecKey(keys, i)
  {
    seq(|keys|, i requires 0 <= i < |keys| => DecKey(keys, i))
  }

  // ---------------------------------------------------------------- each layer is undone

  lemma InvSubInverts(s: State)
    ensures InvSubBytes(SubBytes(s)) == s
  {
    hide S, Si;
    InvSubColInverts(s.c0);
    InvSubColInverts(s.c1);
    InvSubColInverts(s.c2);
    InvSubColInverts(s.c3);
  }

  lemma InvSubColInverts(p: Col)
    ensures InvSubCol(SubCol(p)) == p
  {
    hide S, Si;
    SBoxInverts(p.a);
    SBoxInverts(p.b);
    SBoxInverts(p.c);
    SBoxInverts(p.d);
  }

  /** Substitution acts on single bytes, so it commutes with the row shift. */
  lemma SubShiftInverts(s: State)
    ensures InvShiftRows(InvSubBytes(ShiftRows(SubBytes(s)))) == s
  {
    hide S, Si;
    assert ShiftRows(SubBytes(s)) == SubBytes(ShiftRows(s));
    InvSubInverts(ShiftRows(s));
  }

  lemma AddRoundKeyCancels(s: State, k: State)
    ensures AddRoundKey(AddRoundKey(s, k), k) == s
  {
    hide AddCol;
    AddColCancels(s.c0, k.c0);
    AddColCancels(s.c1, k.c1);
    AddColCancels(s.c2, k.c2);
    AddColCancels(s.c3, k.c3);
  }

  lemma InvMixColumnsOfSum(s: State, k: State)
    ensures InvMixColumns(AddRoundKey(MixColumns(s), k)) == AddRoundKey(s, InvMixColumns(k))
  {
    hide AddCol, Mix, InvMix;
    InvMixLinear(Mix(s.c0), k.c0);
    InvMixLinear(Mix(s.c1), k.c1);
    InvMixLinear(Mix(s.c2), k.c2);
    InvMixLinear(Mix(s.c3), k.c3);
    InvMixInverts(s.c0);
    InvMixInverts(s.c1);
    InvMixInverts(s.c2);
    InvMixInverts(s.c3);
  }

  /** An inverse round under the transformed key undoes the mixing of the round before. */
  lemma InvRoundUndoes(s: State, k: State)
    ensures InvRound(ShiftRows(SubBytes(Round(s, k))), InvMixColumns(k)) == ShiftRows(SubBytes(s))
  {
    hide ShiftRows, SubBytes, InvShiftRows, InvSubBytes, MixColumns, InvMixColumns, AddRoundKey;
    SubShiftInverts(Round(s, k));
    InvMixColumnsOfSum(ShiftRows(SubBytes(s)), k);
    AddRoundKeyCancels(ShiftRows(SubBytes(s)), InvMixColumns(k));
  }

  /** After i rounds of decryption the state is that of encryption, i rounds before its end. */
  lemma {:induction false} InvRoundsUndo(s: State, keys: seq<State>, i: nat)
    requires |keys| >= 2 && i <= |keys| - 2
    ensures InvRounds(Cipher(s, keys), DecKeys(keys), i) == ShiftRows(SubBytes(Rounds(s, keys, |keys| - 2 - i)))
  {
    hide ShiftRows, SubBytes, InvRound, MixColumns, InvMixColumns, AddRoundKey;
    var n := |keys| - 1;
    if i == 0 {
      AddRoundKeyCancels(ShiftRows(SubBytes(Rounds(s, keys, n - 1))), keys[n]);
    } else {
      InvRoundsUndo(s, keys, i - 1);
      InvRoundUndoes(Rounds(s, keys, n - 1 - i), keys[n - i]);
    }
  }

  /** Decryption under the decryption schedule undoes encryption: for every block, every sequence of
      round keys and every number of rounds. */
  lemma DecryptionInverts(s: State, keys: seq<State>)
    requires |keys| >= 2
    ensures EqInvCipher(Cipher(s, keys), DecKeys(keys)) == s
  {
    hide ShiftRows, SubBytes, InvShiftRows, InvSubBytes, AddRoundKey, InvMixColumns, InvRound, Round, InvRounds;
    var n := |keys| - 1;
    InvRoundsUndo(s, keys, n - 1);
    SubShiftInverts(Rounds(s, keys, 0));
    AddRoundKeyCancels(s, keys[0]);
  }
}
