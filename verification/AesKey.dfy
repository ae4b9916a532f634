/** Key schedules of aes.c: the expansion loops against the recurrence of section 5.2 of FIPS 197,
    and the in-place decryption schedule. */
module AesKey {
  import Wire
  import opened AesField
  import opened AesCipher
  import opened AesTables
  import opened Aes

  // ---------------------------------------------------------------- the recurrence

  function RotWord(w: word): (r: word) { Word(Col(B1(w), B2(w), B3(w), B0(w))) }
  function SubWord(w: word): (r: word) { Word(SubCol(Abs(w))) }

  /** Addition of words. */
  function Plus(v: word, w: word): (r: word) { v ^ w }

  /** Power(n) is x to the power n - 1. */
  function Power(n: int): (r: byte) {
    if n <= 1 then 1 else XTime(Power(n - 1))
  }

  function Rcon(n: int): (w: word) { Word(Col(Power(n), 0, 0, 0)) }

  const RCON: seq<word> := [0x01000000, 0x02000000, 0x04000000, 0x08000000, 0x10000000,
                            0x20000000, 0x40000000, 0x80000000, 0x1B000000, 0x36000000]

  /** The change to the previous word at position i of a schedule for nk key words. */
  function Mangle(w: word, nk: nat, i: nat): (r: word)
    requires nk > 0
  {
    if i % nk == 0 && i > 0 then Plus(SubWord(RotWord(w)), Rcon(i / nk))
    else if nk > 6 && i % nk == 4 then SubWord(w)
    else w
  }

  /** Word i of the expanded key. */
  function Expand(key: seq<word>, i: nat): (w: word)
    requires |key| > 0
  {
    if i < |key| then key[i] else Plus(Expand(key, i - |key|), Mangle(Expand(key, i - 1), |key|, i))
  }

  lemma RconTable(n: nat)
    requires n < 10
    ensures RCON[n] == Rcon(n + 1)
  {
    assert Power(2) == 0x02;
    assert Power(3) == 0x04;
    assert Power(4) == 0x08;
    assert Power(5) == 0x10;
    assert Power(6) == 0x20;
    assert Power(7) == 0x40;
    assert Power(8) == 0x80;
    assert Power(9) == 0x1b;
    assert Power(10) == 0x36;
  }

  lemma GatherSubs(x: byte, y: byte, z: byte, u: byte)
    ensures Gather(Te4(x), Te4(y), Te4(z), Te4(u)) == Word(SubCol(Col(x, y, z, u)))
  {
    hide Gather, Word, S, B0, B1, B2, B3;
    AbsWord(Col(S(x), S(x), S(x), S(x)));
    AbsWord(Col(S(y), S(y), S(y), S(y)));
    AbsWord(Col(S(z), S(z), S(z), S(z)));
    AbsWord(Col(S(u), S(u), S(u), S(u)));
    GatherTakes(Te4(x), Te4(y), Te4(z), Te4(u));
    WordAbs(Gather(Te4(x), Te4(y), Te4(z), Te4(u)));
  }

  /** What the loops compute from the last word of a group: rotated, substituted, with the constant. */
  function Turned(w: word, n: nat): (r: word)
    requires n < 10
  {
    Plus(Gather(Te4(B1(w)), Te4(B2(w)), Te4(B3(w)), Te4(B0(w))), RCON[n])
  }

  lemma TurnedIsMangle(w: word, nk: nat, n: nat)
    requires (nk == 4 || nk == 6 || nk == 8) && n < 10
    ensures Turned(w, n) == Mangle(w, nk, nk * (n + 1))
  {
    hide Gather, Word, Te4, SubCol, B0, B1, B2, B3, Rcon, Plus;
    Multiple(nk, n + 1);
    RconTable(n);
    AbsWord(Col(B1(w), B2(w), B3(w), B0(w)));
    GatherSubs(B1(w), B2(w), B3(w), B0(w));
  }

  lemma Multiple(k: nat, n: nat)
    requires k == 4 || k == 6 || k == 8
    ensures k * n % k == 0 && k * n / k == n
  {
    if k == 4 {
    } else if k == 6 {
    }
  }

  // ---------------------------------------------------------------- one group of words

  lemma ExpandTurn(key: seq<word>, n: nat)
    requires (|key| == 4 || |key| == 6 || |key| == 8) && n < 10
    ensures var i := |key| * (n + 1);
            i >= |key| && Expand(key, i) == Plus(Expand(key, i - |key|), Turned(Expand(key, i - 1), n))
  {
    hide Turned, Mangle, Plus;
    var i := |key| * (n + 1);
    TurnedIsMangle(Expand(key, i - 1), |key|, n);
  }

  lemma ExpandPlain(key: seq<word>, i: nat)
    requires 0 < |key| <= i && i % |key| != 0 && (|key| <= 6 || i % |key| != 4)
    ensures Expand(key, i) == Plus(Expand(key, i - |key|), Expand(key, i - 1))
  {
    hide SubWord, RotWord, Rcon, Plus;
  }

  /** The extra substitution in the middle of a group of eight. */
  lemma ExpandMiddle(key: seq<word>, i: nat)
    requires |key| == 8 && i >= 8 && i % 8 == 4
    ensures var w := Expand(key, i - 1);
            Expand(key, i) == Plus(Expand(key, i - 8), Gather(Te4(B0(w)), Te4(B1(w)), Te4(B2(w)), Te4(B3(w))))
  {
    hide Gather, Word, Te4, SubCol, RotWord, Rcon, Plus, B0, B1, B2, B3;
    var w := Expand(key, i - 1);
    GatherSubs(B0(w), B1(w), B2(w), B3(w));
  }

  /** The first n words of the buffer are the schedule. */
  ghost predicate Holds(rk: array<word>, key: seq<word>, n: nat)
    reads rk
  {
    |key| > 0 && n <= rk.Length && forall j :: 0 <= j < n ==> rk[j] == Expand(key, j)
  }

  // ---------------------------------------------------------------- the loops

  /** The next word of the schedule goes into the buffer. */
  method Fill(rk: array<word>, n: nat, w: word, ghost key: seq<word>)
    requires Holds(rk, key, n) && n < rk.Length && w == Expand(key, n)
    modifies rk
    ensures Holds(rk, key, n + 1)
  {
    hide Expand;
    rk[n] := w;
  }

  /** Three words after word n, each the sum of the one before and the one a key length back. */
  ghost predicate Chained(key: seq<word>, n: nat) {
    && 0 < |key| <= n
    && Expand(key, n + 1) == Plus(Expand(key, n + 1 - |key|), Expand(key, n))
    && Expand(key, n + 2) == Plus(Expand(key, n + 2 - |key|), Expand(key, n + 1))
    && Expand(key, n + 3) == Plus(Expand(key, n + 3 - |key|), Expand(key, n + 2))
  }

  lemma ChainedGroup(key: seq<word>, g: nat, m: nat)
    requires (|key| == 4 || |key| == 6 || |key| == 8) && g > 0
    requires m == 0 || (|key| == 8 && m == 4)
    ensures Chained(key, |key| * g + m)
  {
    hide Expand, Plus;
    ExpandInside(key, g, m + 1);
    ExpandInside(key, g, m + 2);
    ExpandInside(key, g, m + 3);
  }

  lemma Remainder4(g: nat, d: nat) ensures d < 4 ==> (4 * g + d) % 4 == d {}

  lemma Remainder6(g: nat, d: nat) ensures d < 6 ==> (6 * g + d) % 6 == d {}

  lemma Remainder8(g: nat, d: nat) ensures d < 8 ==> (8 * g + d) % 8 == d {}

  /** A word that is neither the first nor the middle one of its group g. */
  lemma ExpandInside(key: seq<word>, g: nat, d: nat)
    requires (|key| == 4 || |key| == 6 || |key| == 8) && g > 0
    requires 0 < d < |key| && (|key| == 8 ==> d != 4)
    ensures var i := |key| * g + d;
            i >= |key| && Expand(key, i) == Plus(Expand(key, i - |key|), Expand(key, i - 1))
  {
    hide Plus, Expand;
    if |key| == 4 {
      Remainder4(g, d);
      ExpandPlain(key, 4 * g + d);
    } else if |key| == 6 {
      Remainder6(g, d);
      ExpandPlain(key, 6 * g + d);
    } else {
      Remainder8(g, d);
      ExpandPlain(key, 8 * g + d);
    }
  }

  method Group(rk: array<word>, n: nat, nk: nat, first: word, ghost key: seq<word>)
    requires |key| == nk && Chained(key, n) && Holds(rk, key, n) && n + 4 <= rk.Length && first == Expand(key, n)
    modifies rk
    ensures Holds(rk, key, n + 4)
  {
    hide Expand, Plus;
    Fill(rk, n, first, key);
    Fill(rk, n + 1, Plus(rk[n + 1 - nk], rk[n]), key);
    Fill(rk, n + 2, Plus(rk[n + 2 - nk], rk[n + 1]), key);
    Fill(rk, n + 3, Plus(rk[n + 3 - nk], rk[n + 2]), key);
  }

  method Expand128(rk: array<word>, ghost key: seq<word>)
    requires |key| == 4 && rk.Length >= 44 && Holds(rk, key, 4)
    modifies rk
    ensures Holds(rk, key, 44)
  {
    hide Expand, Turned, Plus, Chained;
    var i, p := 0, 0;
    while true
      invariant 0 <= i < 10 && p == 4 * i && Holds(rk, key, p + 4)
      decreases 10 - i
    {
      ExpandTurn(key, i);
      ChainedGroup(key, i + 1, 0);
      Group(rk, p + 4, 4, Plus(rk[p], Turned(rk[p + 3], i)), key);
      i := i + 1;
      if i == 10 {
        return;
      }
      p := p + 4;
    }
  }

  method Expand192(rk: array<word>, ghost key: seq<word>)
    requires |key| == 6 && rk.Length >= 52 && Holds(rk, key, 6)
    modifies rk
    ensures Holds(rk, key, 52)
  {
    hide Expand, Turned, Plus, Chained;
    var i, p := 0, 0;
    while true
      invariant 0 <= i < 8 && p == 6 * i && Holds(rk, key, p + 6)
      decreases 8 - i
    {
      ExpandTurn(key, i);
      ChainedGroup(key, i + 1, 0);
      Group(rk, p + 6, 6, Plus(rk[p], Turned(rk[p + 5], i)), key);
      i := i + 1;
      if i == 8 {
        return;
      }
      ExpandInside(key, i, 4);
      ExpandInside(key, i, 5);
      Fill(rk, p + 10, Plus(rk[p + 4], rk[p + 9]), key);
      Fill(rk, p + 11, Plus(rk[p + 5], rk[p + 10]), key);
      p := p + 6;
    }
  }

  method Expand256(rk: array<word>, ghost key: seq<word>)
    requires |key| == 8 && rk.Length >= 60 && Holds(rk, key, 8)
    modifies rk
    ensures Holds(rk, key, 60)
  {
    hide Expand, Turned, Plus, Gather, Chained, Te4, B0, B1, B2, B3;
    var i, p := 0, 0;
    while true
      invariant 0 <= i < 7 && p == 8 * i && Holds(rk, key, p + 8)
      decreases 7 - i
    {
      ExpandTurn(key, i);
      ChainedGroup(key, i + 1, 0);
      Group(rk, p + 8, 8, Plus(rk[p], Turned(rk[p + 7], i)), key);
      i := i + 1;
      if i == 7 {
        return;
      }
      ExpandMiddle(key, p + 12);
      ChainedGroup(key, i, 4);
      var temp := rk[p + 11];
      Group(rk, p + 12, 8, Plus(rk[p + 4], Gather(Te4(B0(temp)), Te4(B1(temp)), Te4(B2(temp)), Te4(B3(temp)))), key);
      p := p + 8;
    }
  }

  // ---------------------------------------------------------------- the two schedules

  /** The words of a user key. */
  function KeyWord(userKey: seq<byte>, i: nat): (w: word)
    requires 4 * i + 4 <= |userKey|
  {
    Word(Col(userKey[4 * i], userKey[4 * i + 1], userKey[4 * i + 2], userKey[4 * i + 3]))
  }

  function KeyWordsOf(userKey: seq<byte>): (key: seq<word>)
    ensures |key| == |userKey| / 4
  {
    seq(|userKey| / 4, i requires 0 <= i < |userKey| / 4 => KeyWord(userKey, i))
  }

  function RoundsFor(bits: int): (rounds: nat) {
    if bits == 128 then 10 else if bits == 192 then 12 else 14
  }

  predicate KeySize(bits: int) {
    bits == 128 || bits == 192 || bits == 256
  }

  /** AES_set_encrypt_key: -1 for a missing argument, -2 for a bad key size, else the schedule of the
      recurrence. */
  method SetEncryptKey(userKey: Wire.Option<seq<byte>>, bits: int, rk: array?<word>) returns (status: int, rounds: nat)
    requires rk != null ==> rk.Length == 60
    requires userKey.Some? && KeySize(bits) ==> 8 * |userKey.value| == bits
    modifies rk
    ensures status == if userKey.None? || rk == null then -1 else if bits in {128, 192, 256} then 0 else -2
    ensures status == 0 ==> rounds == bits / 32 + 6 && Holds(rk, KeyWordsOf(userKey.value), 4 * (rounds + 1))
    ensures status == 0 ==> forall i {:trigger rk[i]} :: 0 <= i < bits / 32 ==> var u := userKey.value;
              Abs(rk[i]) == Col(u[4 * i], u[4 * i + 1], u[4 * i + 2], u[4 * i + 3])
  {
    if userKey.None? || rk == null {
      return -1, 0;
    }
    status, rounds := ExpandKey(userKey.value, bits, rk);
  }

  method ExpandKey(userKey: seq<byte>, bits: int, rk: array<word>) returns (status: int, rounds: nat)
    requires rk.Length == 60 && (KeySize(bits) ==> 8 * |userKey| == bits)
    modifies rk
    ensures status == if KeySize(bits) then 0 else -2
    ensures status == 0 ==> rounds == bits / 32 + 6 && Holds(rk, KeyWordsOf(userKey), 4 * (rounds + 1))
    ensures status == 0 ==> forall i {:trigger rk[i]} :: 0 <= i < bits / 32 ==>
              Abs(rk[i]) == Col(userKey[4 * i], userKey[4 * i + 1], userKey[4 * i + 2], userKey[4 * i + 3])
  {
    hide Expand, KeyWord;
    if !KeySize(bits) {
      return -2, 0;
    }
    ghost var key := KeyWordsOf(userKey);
    rounds := RoundsFor(bits);
    for n := 0 to |userKey| / 4
      invariant Holds(rk, key, n)
    {
      KeyIsPrefix(key, n);
      Fill(rk, n, KeyWord(userKey, n), key);
    }
    if bits == 128 {
      Expand128(rk, key);
    } else if bits == 192 {
      Expand192(rk, key);
    } else {
      Expand256(rk, key);
    }
    status := 0;
    forall i {:trigger rk[i]} | 0 <= i < bits / 32
      ensures Abs(rk[i]) == Col(userKey[4 * i], userKey[4 * i + 1], userKey[4 * i + 2], userKey[4 * i + 3])
    {
      KeyIsPrefix(key, i);
      KeyWordIs(userKey, i);
    }
  }

  lemma KeyWordIs(userKey: seq<byte>, i: nat)
    requires 4 * i + 4 <= |userKey|
    ensures Abs(KeyWord(userKey, i)) ==
            Col(userKey[4 * i], userKey[4 * i + 1], userKey[4 * i + 2], userKey[4 * i + 3])
  {
    hide Abs, Word;
    AbsWord(Col(userKey[4 * i], userKey[4 * i + 1], userKey[4 * i + 2], userKey[4 * i + 3]));
  }

  lemma KeyIsPrefix(key: seq<word>, n: nat)
    requires n < |key|
    ensures Expand(key, n) == key[n]
  {
  }

  /** InvMixColumns on a word, through the tables: Si undoes the S of Te4. */
  function InvMixWord(w: word): (r: word) {
    Xor(Td0(B3(Te4(B0(w)))), Td1(B3(Te4(B1(w)))), Td2(B3(Te4(B2(w)))), Td3(B3(Te4(B3(w)))), 0)
  }

  lemma Te4LowByte(x: byte)
    ensures B3(Te4(x)) == S(x)
  {
    hide S, Word, B0, B1, B2, B3;
    AbsWord(Col(S(x), S(x), S(x), S(x)));
  }

  lemma AddColZero(p: Col)
    ensures AddCol(p, Abs(0)) == p
  {
    assert Abs(0) == Col(0, 0, 0, 0);
    hide Abs, Add;
    AddCancels(p.a, 0);
    AddCancels(p.b, 0);
    AddCancels(p.c, 0);
    AddCancels(p.d, 0);
  }

  lemma InvMixWordMixes(w: word)
    ensures Abs(InvMixWord(w)) == InvMix(Abs(w))
  {
    hide S, Si, InvMix, B0, B1, B2, B3, Te4, Td0, Td1, Td2, Td3, Xor, AddCol;
    Te4LowByte(B0(w));
    Te4LowByte(B1(w));
    Te4LowByte(B2(w));
    Te4LowByte(B3(w));
    DecRowMixes(S(B0(w)), S(B1(w)), S(B2(w)), S(B3(w)), 0);
    InvSubColInverts(Abs(w));
    AddColZero(InvMix(Abs(w)));
  }

  // Round keys in a buffer, by groups of four words.

  predicate SameGroup(a: seq<word>, g: nat, b: seq<word>, h: nat)
    requires 4 * g + 4 <= |a| && 4 * h + 4 <= |b|
  {
    a[4 * g] == b[4 * h] && a[4 * g + 1] == b[4 * h + 1] && a[4 * g + 2] == b[4 * h + 2] && a[4 * g + 3] == b[4 * h + 3]
  }

  method SwapGroups(rk: array<word>, lo: nat, hi: nat)
    requires lo < hi && 4 * hi + 4 <= rk.Length
    modifies rk
    ensures SameGroup(rk[..], lo, old(rk[..]), hi) && SameGroup(rk[..], hi, old(rk[..]), lo)
    ensures forall k :: 0 <= k < rk.Length && !(4 * lo <= k < 4 * lo + 4) && !(4 * hi <= k < 4 * hi + 4) ==>
              rk[k] == old(rk[k])
  {
    var i, j := 4 * lo, 4 * hi;
    SwapWords(rk, i, j);
    SwapWords(rk, i + 1, j + 1);
    SwapWords(rk, i + 2, j + 2);
    SwapWords(rk, i + 3, j + 3);
  }

  method SwapWords(rk: array<word>, i: nat, j: nat)
    requires i < rk.Length && j < rk.Length
    modifies rk
    ensures forall k :: 0 <= k < rk.Length ==>
              rk[k] == if k == i then old(rk[j]) else if k == j then old(rk[i]) else old(rk[k])
  {
    var temp := rk[i];
    rk[i] := rk[j];
    rk[j] := temp;
  }

  /** Round key g of a is round key rounds - g of b. */
  predicate Mirrored(a: seq<word>, b: seq<word>, rounds: nat, g: nat)
    requires g <= rounds && 4 * (rounds + 1) <= |a| && 4 * (rounds + 1) <= |b|
  {
    SameGroup(a, g, b, rounds - g)
  }

  /** The first loop of AES_set_decrypt_key: the round keys in reverse order. */
  method ReverseKeys(rk: array<word>, rounds: nat)
    requires rk.Length >= 4 * (rounds + 1)
    modifies rk
    ensures forall g :: 0 <= g <= rounds ==> Mirrored(rk[..], old(rk[..]), rounds, g)
  {
    hide Mirrored, SameGroup, Reversing;
    var lo, hi := 0, rounds;
    ReversingStarts(rk[..], rounds);
    while lo < hi
      invariant 0 <= lo <= hi + 1 && lo + hi == rounds
      invariant Reversing(rk[..], old(rk[..]), rounds, lo)
    {
      ghost var before := rk[..];
      SwapGroups(rk, lo, hi);
      OtherGroups(before, rk[..], lo, hi);
      ReversingStep(before, rk[..], old(rk[..]), rounds, lo);
      lo, hi := lo + 1, hi - 1;
    }
    ReversingEnds(rk[..], old(rk[..]), rounds, lo);
  }

  /** The outer lo groups on each side are mirrored, the others are where they were. */
  ghost predicate Reversing(a: seq<word>, b: seq<word>, rounds: nat, lo: nat)
    requires 4 * (rounds + 1) <= |a| && 4 * (rounds + 1) <= |b|
  {
    && (forall g :: 0 <= g <= rounds && (g < lo || rounds - lo < g) ==> Mirrored(a, b, rounds, g))
    && (forall g :: lo <= g <= rounds - lo ==> SameGroup(a, g, b, g))
  }

  lemma ReversingStarts(a: seq<word>, rounds: nat)
    requires 4 * (rounds + 1) <= |a|
    ensures Reversing(a, a, rounds, 0)
  {
  }

  lemma ReversingEnds(a: seq<word>, b: seq<word>, rounds: nat, lo: nat)
    requires 4 * (rounds + 1) <= |a| && 4 * (rounds + 1) <= |b| && Reversing(a, b, rounds, lo)
    requires rounds - lo <= lo <= rounds - lo + 1
    ensures forall g :: 0 <= g <= rounds ==> Mirrored(a, b, rounds, g)
  {
    hide SameGroup;
    forall g | 0 <= g <= rounds ensures Mirrored(a, b, rounds, g) {
      if lo <= g <= rounds - lo {
        assert g == rounds - g && SameGroup(a, g, b, g);
      }
    }
  }

  lemma ReversingStep(a: seq<word>, c: seq<word>, b: seq<word>, rounds: nat, lo: nat)
    requires |a| == |c| && 4 * (rounds + 1) <= |a| && 4 * (rounds + 1) <= |b| && lo < rounds - lo
    requires Reversing(a, b, rounds, lo) && SameGroup(c, lo, a, rounds - lo) && SameGroup(c, rounds - lo, a, lo)
    requires forall g :: 0 <= g <= rounds && g != lo && g != rounds - lo ==> SameGroup(c, g, a, g)
    ensures Reversing(c, b, rounds, lo + 1)
  {
    var hi := rounds - lo;
    assert SameGroup(a, lo, b, lo) && SameGroup(a, hi, b, hi);
    SameGroupTrans(c, lo, a, hi, b, hi);
    SameGroupTrans(c, hi, a, lo, b, lo);
    hide SameGroup;
    forall g | 0 <= g <= rounds && g != lo && g != hi
      ensures (g < lo || hi < g ==> Mirrored(c, b, rounds, g)) && (lo < g < hi ==> SameGroup(c, g, b, g))
    {
      assert SameGroup(c, g, a, g);
      if lo < g < hi {
        assert SameGroup(a, g, b, g);
        SameGroupTrans(c, g, a, g, b, g);
      } else {
        assert Mirrored(a, b, rounds, g);
        SameGroupTrans(c, g, a, g, b, rounds - g);
      }
    }
  }

  lemma OtherGroups(a: seq<word>, c: seq<word>, lo: nat, hi: nat)
    requires |a| == |c|
    requires forall k :: 0 <= k < |a| && !(4 * lo <= k < 4 * lo + 4) && !(4 * hi <= k < 4 * hi + 4) ==> c[k] == a[k]
    ensures forall g :: 0 <= g && 4 * g + 4 <= |a| && g != lo && g != hi ==> SameGroup(c, g, a, g)
  {
  }

  lemma SameGroupTrans(a: seq<word>, i: nat, b: seq<word>, j: nat, c: seq<word>, k: nat)
    requires 4 * i + 4 <= |a| && 4 * j + 4 <= |b| && 4 * k + 4 <= |c| && SameGroup(a, i, b, j) && SameGroup(b, j, c, k)
    ensures SameGroup(a, i, c, k)
  {
  }

  method MixGroup(rk: array<word>, p: nat)
    requires p + 4 <= rk.Length
    modifies rk
    ensures forall k :: 0 <= k < rk.Length ==> rk[k] == if p <= k < p + 4 then InvMixWord(old(rk[k])) else old(rk[k])
  {
    hide InvMixWord;
    rk[p] := InvMixWord(rk[p]);
    rk[p + 1] := InvMixWord(rk[p + 1]);
    rk[p + 2] := InvMixWord(rk[p + 2]);
    rk[p + 3] := InvMixWord(rk[p + 3]);
  }

  /** The second loop of AES_set_decrypt_key: InvMixColumns on the inner round keys. */
  method MixKeys(rk: array<word>, rounds: nat)
    requires rounds >= 1 && rk.Length >= 4 * (rounds + 1)
    modifies rk
    ensures forall k :: 0 <= k < rk.Length ==>
              rk[k] == if 4 <= k < 4 * rounds then InvMixWord(old(rk[k])) else old(rk[k])
  {
    hide InvMixWord;
    for i := 1 to rounds
      invariant forall k :: 0 <= k < rk.Length ==>
                  rk[k] == if 4 <= k < 4 * i then InvMixWord(old(rk[k])) else old(rk[k])
    {
      MixGroup(rk, 4 * i);
    }
  }

  lemma MixedKey(b: seq<word>, c: seq<word>, rounds: nat, g: nat)
    requires 0 < g < rounds && |b| == |c| && |b| >= 4 * (rounds + 1)
    requires forall k :: 4 * g <= k < 4 * g + 4 ==> c[k] == InvMixWord(b[k])
    ensures KeyAt(c, g) == InvMixColumns(KeyAt(b, g))
  {
    hide InvMixWord, Abs, InvMix;
    InvMixWordMixes(b[4 * g]);
    InvMixWordMixes(b[4 * g + 1]);
    InvMixWordMixes(b[4 * g + 2]);
    InvMixWordMixes(b[4 * g + 3]);
  }

  lemma DecryptionKey(a: seq<word>, b: seq<word>, c: seq<word>, rounds: nat, g: nat)
    requires rounds >= 1 && |a| == |b| == |c| && |a| >= 4 * (rounds + 1) && g <= rounds && Mirrored(b, a, rounds, g)
    requires forall k :: 0 <= k < |b| ==> c[k] == if 4 <= k < 4 * rounds then InvMixWord(b[k]) else b[k]
    ensures KeyAt(c, g) == DecKey(KeysOf(a, rounds), g)
  {
    hide InvMixWord, Abs, InvMixColumns;
    assert KeyAt(b, g) == KeyAt(a, rounds - g);
    if 0 < g < rounds {
      MixedKey(b, c, rounds, g);
    }
  }

  /** The in-place loops turn the round keys of the buffer into the decryption schedule. */
  method InvertSchedule(rk: array<word>, rounds: nat)
    requires rounds >= 1 && rk.Length >= 4 * (rounds + 1)
    modifies rk
    ensures KeysOf(rk[..], rounds) == DecKeys(KeysOf(old(rk[..]), rounds))
  {
    hide InvMixWord, DecKey, KeyAt, Mirrored;
    ReverseKeys(rk, rounds);
    ghost var b := rk[..];
    MixKeys(rk, rounds);
    forall g | 0 <= g <= rounds ensures KeyAt(rk[..], g) == DecKey(KeysOf(old(rk[..]), rounds), g) {
      DecryptionKey(old(rk[..]), b, rk[..], rounds, g);
    }
  }

  function Schedule(userKey: seq<byte>, n: nat): (rk: seq<word>)
    requires |userKey| >= 4
    ensures |rk| == n
  {
    seq(n, j requires 0 <= j < n => Expand(KeyWordsOf(userKey), j))
  }

  /** AES_set_decrypt_key: the decryption schedule of the key that AES_set_encrypt_key expands. */
  method SetDecryptKey(userKey: Wire.Option<seq<byte>>, bits: int, rk: array?<word>) returns (status: int, rounds: nat)
    requires rk != null ==> rk.Length == 60
    requires userKey.Some? && KeySize(bits) ==> 8 * |userKey.value| == bits
    modifies rk
    ensures status == if userKey.None? || rk == null then -1 else if bits in {128, 192, 256} then 0 else -2
    ensures status == 0 ==>
              && rounds == bits / 32 + 6
              && KeysOf(rk[..], rounds) == DecKeys(KeysOf(Schedule(userKey.value, 4 * (rounds + 1)), rounds))
  {
    hide Expand, DecKeys, KeyWord;
    status, rounds := SetEncryptKey(userKey, bits, rk);
    if status < 0 {
      return;
    }
    SameKeys(rk[..], Schedule(userKey.value, 4 * (rounds + 1)), rounds);
    InvertSchedule(rk, rounds);
  }

  /** What AES_decrypt computes under a decryption schedule undoes what AES_encrypt computes under the
      encryption schedule that it was made from. */
  lemma DecryptUndoesEncrypt(input: Block, ek: seq<word>, dk: seq<word>, rounds: nat)
    requires rounds >= 1 && |ek| >= 4 * (rounds + 1) && |dk| >= 4 * (rounds + 1)
    requires KeysOf(dk, rounds) == DecKeys(KeysOf(ek, rounds))
    ensures var c := BytesOf(Cipher(StateOf(input), KeysOf(ek, rounds)));
            BytesOf(EqInvCipher(StateOf(c), KeysOf(dk, rounds))) == input
  {
    hide Cipher, EqInvCipher, DecKeys, StateOf, BytesOf, KeyAt;
    var keys := KeysOf(ek, rounds);
    var c := Cipher(StateOf(input), keys);
    BlockRoundTrip(input, c);
    DecryptionInverts(StateOf(input), keys);
  }

  lemma SameKeys(a: seq<word>, b: seq<word>, rounds: nat)
    requires |a| >= 4 * (rounds + 1) && |b| >= 4 * (rounds + 1)
    requires forall k :: 0 <= k < 4 * (rounds + 1) ==> a[k] == b[k]
    ensures KeysOf(a, rounds) == KeysOf(b, rounds)
  {
    hide Abs;
  }
}
