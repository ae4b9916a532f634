/** AES_cbc_encrypt: cipher block chaining of section 6.2 of NIST SP 800-38A, with the partial last
    block that the code allows. */
module AesCbc {
  import Wire
  import opened AesField
  import opened AesCipher
  import opened AesTables
  import opened Aes

  /** Buffers hold bytes as numbers; the cipher works on their bits. */
  type Vec = v: seq<Wire.byte> | |v| == 16 witness seq(16, _ => 0)

  /** The byte whose number is x. */
  function Bits(x: Wire.byte): (b: byte) { if x == 0 then 0 else Bits(x - 1) + 1 }
  function Number(b: byte): (x: Wire.byte) { b as int }

  lemma AddOne(b: bv8) requires b as int < 255 ensures (b + 1) as int == b as int + 1 {}
  lemma SameNumber(b: bv8, c: bv8) requires b as int == c as int ensures b == c {}

  lemma {:induction false} NumberOfBits(x: Wire.byte)
    ensures Number(Bits(x)) == x
  {
    if x > 0 {
      NumberOfBits(x - 1);
      AddOne(Bits(x - 1));
    }
  }

  lemma BitsOfNumber(b: byte)
    ensures Bits(Number(b)) == b
  {
    NumberOfBits(Number(b));
    SameNumber(Bits(Number(b)), b);
  }

  function BlockOf(v: Vec): (b: Block) { seq(16, i requires 0 <= i < 16 => Bits(v[i])) }
  function VecOf(b: Block): (v: Vec) { seq(16, i requires 0 <= i < 16 => Number(b[i])) }

  lemma VecRoundTrip(v: Vec, b: Block)
    ensures VecOf(BlockOf(v)) == v
    ensures BlockOf(VecOf(b)) == b
  {
    hide Bits, Number;
    forall i | 0 <= i < 16 ensures VecOf(BlockOf(v))[i] == v[i] { NumberOfBits(v[i]); }
    forall i | 0 <= i < 16 ensures BlockOf(VecOf(b))[i] == b[i] { BitsOfNumber(b[i]); }
  }

  function EncBlock(v: Vec, keys: seq<State>): (r: Vec)
    requires |keys| >= 2
  {
    VecOf(BytesOf(Cipher(StateOf(BlockOf(v)), keys)))
  }

  function DecBlock(v: Vec, keys: seq<State>): (r: Vec)
    requires |keys| >= 2
  {
    VecOf(BytesOf(EqInvCipher(StateOf(BlockOf(v)), keys)))
  }

  lemma DecBlockInverts(v: Vec, keys: seq<State>)
    requires |keys| >= 2
    ensures DecBlock(EncBlock(v, keys), DecKeys(keys)) == v
  {
    hide Cipher, EqInvCipher, DecKeys, StateOf, BytesOf, BlockOf, VecOf;
    var b := BlockOf(v);
    var c := Cipher(StateOf(b), keys);
    DecryptionInverts(StateOf(b), keys);
    BlockRoundTrip(b, c);
    VecRoundTrip(v, BytesOf(c));
  }

  function XorByte(x: Wire.byte, y: Wire.byte): (r: Wire.byte) { Number(Add(Bits(x), Bits(y))) }

  lemma XorByteCancels(x: Wire.byte, y: Wire.byte)
    ensures XorByte(XorByte(x, y), y) == x
    ensures XorByte(0, y) == y
  {
    hide Add;
    BitsOfNumber(Add(Bits(x), Bits(y)));
    AddCancels(Bits(x), Bits(y));
    AddCancels(Bits(y), 0);
    assert Bits(0) == 0;
    hide Bits, Number;
    NumberOfBits(x);
    NumberOfBits(y);
  }

  function XorVec(a: Vec, b: Vec): (r: Vec) {
    seq(16, i requires 0 <= i < 16 => XorByte(a[i], b[i]))
  }

  lemma XorCancels(a: Vec, b: Vec)
    ensures XorVec(XorVec(a, b), b) == a
  {
    hide XorByte;
    forall i | 0 <= i < 16 ensures XorVec(XorVec(a, b), b)[i] == a[i] { XorByteCancels(a[i], b[i]); }
  }

  /** The bytes of a block that are there, and zeros. */
  function Pad(s: seq<Wire.byte>): (r: Vec)
    requires |s| <= 16
  {
    s + seq(16 - |s|, _ => 0)
  }

  /** Encryption and decryption of one block, as functions. */
  function Encipher(keys: seq<State>): (f: Vec -> Vec)
    requires |keys| >= 2
  {
    (b: Vec) => EncBlock(b, keys)
  }

  function Decipher(keys: seq<State>): (g: Vec -> Vec)
    requires |keys| >= 2
  {
    (b: Vec) => DecBlock(b, keys)
  }

  ghost predicate Undoes(g: Vec -> Vec, f: Vec -> Vec) {
    forall b :: g(f(b)) == b
  }

  /** The bytes written and the vector left behind. */
  datatype Chain = Chain(out: seq<Wire.byte>, iv: Vec)

  /** Chaining, block by block; a partial last block is padded with zeros and written whole. */
  function CbcEnc(s: seq<Wire.byte>, iv: Vec, f: Vec -> Vec): (r: Chain) {
    if s == [] then Chain([], iv)
    else if |s| < 16 then
      var c := f(XorVec(Pad(s), iv));
      Chain(c, c)
    else
      var c := f(XorVec(s[..16], iv));
      var rest := CbcEnc(s[16..], c, f);
      Chain(c + rest.out, rest.iv)
  }

  /** A length rounded up to whole blocks. */
  function Rounded(n: nat): (r: nat)
    ensures n <= r < n + 16
  {
    if n == 0 then 0 else if n < 16 then 16 else 16 + Rounded(n - 16)
  }

  /** length bytes of plain text; a partial last block is read whole, and the vector it leaves is the
      raw decryption. */
  function CbcDec(s: seq<Wire.byte>, length: nat, iv: Vec, g: Vec -> Vec): (r: Chain)
    requires |s| >= Rounded(length)
    ensures |r.out| == length
    decreases length
  {
    if length == 0 then Chain([], iv)
    else if length < 16 then
      var t := g(s[..16]);
      Chain(XorVec(t, iv)[..length], t)
    else
      var c: Vec := s[..16];
      var rest := CbcDec(s[16..], length - 16, c, g);
      Chain(XorVec(g(c), iv) + rest.out, rest.iv)
  }

  lemma {:induction false} CbcEncLength(s: seq<Wire.byte>, iv: Vec, f: Vec -> Vec)
    ensures |CbcEnc(s, iv, f).out| == Rounded(|s|)
    decreases |s|
  {
    hide XorVec, Pad;
    if |s| >= 16 { CbcEncLength(s[16..], f(XorVec(s[..16], iv)), f); }
  }

  /** Decryption gives back the plain text, for every length, partial last block included. */
  lemma {:induction false} CbcInverts(s: seq<Wire.byte>, iv: Vec, f: Vec -> Vec, g: Vec -> Vec)
    requires Undoes(g, f)
    ensures |CbcEnc(s, iv, f).out| >= Rounded(|s|)
    ensures CbcDec(CbcEnc(s, iv, f).out, |s|, iv, g).out == s
    decreases |s|
  {
    hide XorVec;
    CbcEncLength(s, iv, f);
    if 0 < |s| < 16 {
      XorCancels(Pad(s), iv);
      var c := f(XorVec(Pad(s), iv));
      assert c[..16] == c;
    } else if |s| >= 16 {
      var c := f(XorVec(s[..16], iv));
      XorCancels(s[..16], iv);
      CbcInverts(s[16..], c, f, g);
      var out := CbcEnc(s, iv, f).out;
      assert out[..16] == c && out[16..] == CbcEnc(s[16..], c, f).out;
      assert s == s[..16] + s[16..];
    }
  }

  /** The library's round trip: any plain text, any vector, any round keys. */
  lemma CbcRoundTrip(s: seq<Wire.byte>, iv: Vec, keys: seq<State>)
    requires |keys| >= 2
    ensures |CbcEnc(s, iv, Encipher(keys)).out| >= Rounded(|s|)
    ensures CbcDec(CbcEnc(s, iv, Encipher(keys)).out, |s|, iv, Decipher(DecKeys(keys))).out == s
  {
    hide EncBlock, DecBlock, DecKeys, CbcEnc, CbcDec;
    forall b ensures Decipher(DecKeys(keys))(Encipher(keys)(b)) == b { DecBlockInverts(b, keys); }
    CbcInverts(s, iv, Encipher(keys), Decipher(DecKeys(keys)));
  }

  /** Splitting the data at a block boundary and carrying the vector changes nothing. */
  lemma {:induction false} CbcEncSplits(s: seq<Wire.byte>, t: seq<Wire.byte>, iv: Vec, f: Vec -> Vec)
    requires Rounded(|s|) == |s|
    ensures var first := CbcEnc(s, iv, f);
            var second := CbcEnc(t, first.iv, f);
            CbcEnc(s + t, iv, f) == Chain(first.out + second.out, second.iv)
    decreases |s|
  {
    hide XorVec, Pad;
    if s == [] {
      assert s + t == t;
    } else {
      RoundedBlock(s);
      hide Rounded;
      var c, rest := f(XorVec(s[..16], iv)), s[16..];
      assert (s + t)[..16] == s[..16] && (s + t)[16..] == rest + t;
      CbcEncSplits(rest, t, c, f);
      EncUnfolds(s, iv, f);
      EncUnfolds(s + t, iv, f);
      hide CbcEnc;
      var first := CbcEnc(rest, c, f);
      Regroup(c, first.out, CbcEnc(t, first.iv, f).out);
    }
  }

  lemma {:induction false} CbcDecSplits(s: seq<Wire.byte>, t: seq<Wire.byte>, length: nat, iv: Vec, g: Vec -> Vec)
    requires Rounded(|s|) == |s| && |t| >= Rounded(length)
    ensures Rounded(|s| + length) == |s| + Rounded(length)
    ensures var first := CbcDec(s, |s|, iv, g);
            var second := CbcDec(t, length, first.iv, g);
            CbcDec(s + t, |s| + length, iv, g) == Chain(first.out + second.out, second.iv)
    decreases |s|
  {
    if s == [] {
      assert s + t == t;
    } else {
      RoundedBlock(s);
      hide XorVec, CbcDec;
      var c, rest := s[..16], s[16..];
      CbcDecSplits(rest, t, length, c, g);
      assert (s + t)[..16] == c && (s + t)[16..] == rest + t;
      DecUnfolds(s, |s|, iv, g);
      DecUnfolds(s + t, |s| + length, iv, g);
      var first := CbcDec(rest, |rest|, c, g);
      Regroup(XorVec(g(c), iv), first.out, CbcDec(t, length, first.iv, g).out);
    }
  }

  lemma RoundedBlock(s: seq<Wire.byte>)
    requires s != [] && Rounded(|s|) == |s|
    ensures |s| >= 16 && Rounded(|s| - 16) == |s| - 16
  {
  }

  lemma EncUnfolds(s: seq<Wire.byte>, iv: Vec, f: Vec -> Vec)
    requires |s| >= 16
    ensures var c := f(XorVec(s[..16], iv));
            var rest := CbcEnc(s[16..], c, f);
            CbcEnc(s, iv, f) == Chain(c + rest.out, rest.iv)
  {
    hide XorVec, Pad;
  }

  lemma DecUnfolds(s: seq<Wire.byte>, length: nat, iv: Vec, g: Vec -> Vec)
    requires length >= 16 && |s| >= Rounded(length)
    ensures |s[16..]| >= Rounded(length - 16)
    ensures var rest := CbcDec(s[16..], length - 16, s[..16], g);
            CbcDec(s, length, iv, g) == Chain(XorVec(g(s[..16]), iv) + rest.out, rest.iv)
  {
    hide XorVec;
  }

  // ---------------------------------------------------------------- the code

  /** tmp = in ^ ivec over the bytes that are there, ivec over the rest. */
  method XorIn(s: seq<Wire.byte>, iv: Vec) returns (tmp: Vec)
    requires |s| <= 16
    ensures tmp == XorVec(Pad(s), iv)
  {
    hide XorByte;
    var t: seq<Wire.byte> := [];
    for n := 0 to 16
      invariant |t| == n && forall i :: 0 <= i < n ==> t[i] == XorByte(Pad(s)[i], iv[i])
    {
      XorByteCancels(0, iv[n]);
      t := t + [if n < |s| then XorByte(s[n], iv[n]) else iv[n]];
    }
    tmp := t;
  }

  method Copy16(a: array<Wire.byte>, at: nat, b: Vec)
    requires at + 16 <= a.Length
    modifies a
    ensures a[at..at + 16] == b
    ensures forall k :: 0 <= k < a.Length && !(at <= k < at + 16) ==> a[k] == old(a[k])
  {
    for n := 0 to 16
      invariant forall k :: 0 <= k < a.Length && !(at <= k < at + 16) ==> a[k] == old(a[k])
      invariant forall i :: 0 <= i < n ==> a[at + i] == b[i]
    {
      a[at + n] := b[n];
    }
  }

  /** One block, whole or partial, of the encrypting branch. */
  method EncryptStep(s: seq<Wire.byte>, output: array<Wire.byte>, at: nat, rk: seq<word>, rounds: nat,
                     ivec: array<Wire.byte>, ghost f: Vec -> Vec)
    requires |s| <= 16 && ivec.Length == 16 && ivec != output && at + 16 <= output.Length
    requires rounds >= 2 && rounds % 2 == 0 && |rk| >= 4 * (rounds + 1)
    requires f == Encipher(KeysOf(rk, rounds))
    modifies output, ivec
    ensures forall k :: 0 <= k < output.Length && !(at <= k < at + 16) ==> output[k] == old(output[k])
    ensures output[at..at + 16] == ivec[..] == f(XorVec(Pad(s), old(ivec[..])))
  {
    hide EncBlock, Cipher, KeysOf, XorVec, Pad, StateOf, BytesOf, BlockOf, VecOf;
    var tmp := XorIn(s, ivec[..]);
    var block := Encrypt(BlockOf(tmp), rk, rounds);
    var c := VecOf(block);
    EncBlockIs(tmp, KeysOf(rk, rounds));
    Copy16(output, at, c);
    Copy16(ivec, 0, c);
    assert ivec[..] == ivec[0..16];
  }

  lemma EncBlockIs(b: Vec, keys: seq<State>)
    requires |keys| >= 2
    ensures EncBlock(b, keys) == VecOf(BytesOf(Cipher(StateOf(BlockOf(b)), keys)))
  {
    hide Cipher, StateOf, BytesOf, BlockOf, VecOf;
  }

  /** done and iv are the chain up to byte at of s. */
  ghost predicate EncUpTo(all: Chain, s: seq<Wire.byte>, at: nat, done: seq<Wire.byte>, iv: Vec, f: Vec -> Vec)
    requires at <= |s|
  {
    && Rounded(|s|) == at + Rounded(|s| - at) && |done| == at
    && all.out == done + CbcEnc(s[at..], iv, f).out && all.iv == CbcEnc(s[at..], iv, f).iv
  }

  lemma Slice<T>(s: seq<T>, a: nat, n: nat)
    requires a + n <= |s|
    ensures s[a..][..n] == s[a..a + n] && s[a..][n..] == s[a + n..]
  {
  }

  lemma Regroup<T>(a: seq<T>, b: seq<T>, c: seq<T>)
    ensures a + (b + c) == (a + b) + c
  {
  }

  lemma PadWhole(v: Vec)
    ensures Pad(v) == v
  {
  }

  lemma EncNext(all: Chain, s: seq<Wire.byte>, at: nat, done: seq<Wire.byte>, iv: Vec, f: Vec -> Vec)
    requires at + 16 <= |s| && EncUpTo(all, s, at, done, iv, f)
    ensures var c := f(XorVec(Pad(s[at..at + 16]), iv)); EncUpTo(all, s, at + 16, done + c, c, f)
  {
    hide XorVec, Pad;
    Slice(s, at, 16);
    PadWhole(s[at..at + 16]);
    var c := f(XorVec(s[at..at + 16], iv));
    Regroup(done, c, CbcEnc(s[at + 16..], c, f).out);
  }

  lemma EncEnd(all: Chain, s: seq<Wire.byte>, at: nat, done: seq<Wire.byte>, iv: Vec, f: Vec -> Vec)
    requires |s| - 16 < at <= |s| && EncUpTo(all, s, at, done, iv, f)
    ensures at == |s| ==> all == Chain(done, iv) && Rounded(|s|) == at
    ensures at < |s| ==> Rounded(|s|) == at + 16
    ensures var c := f(XorVec(Pad(s[at..]), iv)); at < |s| ==> all == Chain(done + c, c)
  {
    hide XorVec, Pad;
    if at == |s| {
      assert done + [] == done;
    }
  }

  /** The encrypting branch. The buffers may be the same: each block is read before it is written. */
  method CbcEncrypt(input: array<Wire.byte>, output: array<Wire.byte>, length: nat, rk: seq<word>, rounds: nat,
                    ivec: array<Wire.byte>)
    requires length <= input.Length && Rounded(length) <= output.Length
    requires ivec.Length == 16 && ivec != input && ivec != output
    requires rounds >= 2 && rounds % 2 == 0 && |rk| >= 4 * (rounds + 1)
    modifies output, ivec
    ensures var r := CbcEnc(old(input[..length]), old(ivec[..]), Encipher(KeysOf(rk, rounds)));
            output[..Rounded(length)] == r.out && ivec[..] == r.iv
    ensures output[Rounded(length)..] == old(output[Rounded(length)..])
  {
    hide Encipher, KeysOf, XorVec, Pad, CbcEnc, EncUpTo;
    ghost var f := Encipher(KeysOf(rk, rounds));
    ghost var s := input[..length];
    ghost var all := CbcEnc(s, ivec[..], f);
    EncStart(s, ivec[..], f);
    var at := 0;
    while length - at >= 16
      invariant 0 <= at <= length
      invariant forall k :: at <= k < length ==> input[k] == s[k]
      invariant forall k :: Rounded(length) <= k < output.Length ==> output[k] == old(output[k])
      invariant EncUpTo(all, s, at, output[..at], ivec[..], f)
    {
      EncNext(all, s, at, output[..at], ivec[..], f);
      ghost var done := output[..at];
      assert input[at..at + 16] == s[at..at + 16];
      EncryptStep(input[at..at + 16], output, at, rk, rounds, ivec, f);
      assert output[..at + 16] == done + output[at..at + 16];
      at := at + 16;
    }
    EncEnd(all, s, at, output[..at], ivec[..], f);
    if at < length {
      ghost var done := output[..at];
      assert input[at..length] == s[at..];
      EncryptStep(input[at..length], output, at, rk, rounds, ivec, f);
      assert output[..at + 16] == done + output[at..at + 16];
    }
  }

  lemma EncStart(s: seq<Wire.byte>, iv: Vec, f: Vec -> Vec)
    ensures EncUpTo(CbcEnc(s, iv, f), s, 0, [], iv, f)
  {
    hide XorVec, Pad;
    assert s[0..] == s;
  }

  // ---------------------------------------------------------------- the decrypting branch

  ghost predicate DecUpTo(all: Chain, s: seq<Wire.byte>, length: nat, at: nat, done: seq<Wire.byte>,
                          iv: Vec, g: Vec -> Vec)
    requires at <= length <= |s|
  {
    && Rounded(length) == at + Rounded(length - at) <= |s| && |done| == at
    && all.out == done + CbcDec(s[at..], length - at, iv, g).out && all.iv == CbcDec(s[at..], length - at, iv, g).iv
  }

  lemma DecStart(s: seq<Wire.byte>, length: nat, iv: Vec, g: Vec -> Vec)
    requires |s| >= Rounded(length)
    ensures DecUpTo(CbcDec(s, length, iv, g), s, length, 0, [], iv, g)
  {
    hide XorVec;
    assert s[0..] == s;
  }

  lemma DecNext(all: Chain, s: seq<Wire.byte>, length: nat, at: nat, done: seq<Wire.byte>,
                          iv: Vec, g: Vec -> Vec)
    requires at + 16 <= length <= |s| && DecUpTo(all, s, length, at, done, iv, g)
    ensures var c: Vec := s[at..at + 16]; DecUpTo(all, s, length, at + 16, done + XorVec(g(c), iv), c, g)
  {
    hide XorVec;
    Slice(s, at, 16);
    var c: Vec := s[at..at + 16];
    Regroup(done, XorVec(g(c), iv), CbcDec(s[at + 16..], length - at - 16, c, g).out);
  }

  lemma DecEnd(all: Chain, s: seq<Wire.byte>, length: nat, at: nat, done: seq<Wire.byte>,
                          iv: Vec, g: Vec -> Vec)
    requires length - 16 < at <= length <= |s| && DecUpTo(all, s, length, at, done, iv, g)
    ensures at == length ==> all == Chain(done, iv)
    ensures at < length ==> at + 16 <= |s|
    ensures at < length ==> var t := g(s[at..at + 16]); all == Chain(done + XorVec(t, iv)[..length - at], t)
  {
    hide XorVec;
    if at == length {
      assert done + [] == done;
    } else {
      Slice(s, at, 16);
    }
  }

  lemma DecBlockIs(b: Vec, keys: seq<State>)
    requires |keys| >= 2
    ensures DecBlock(b, keys) == VecOf(BytesOf(EqInvCipher(StateOf(BlockOf(b)), keys)))
  {
    hide EqInvCipher, StateOf, BytesOf, BlockOf, VecOf;
  }

  /** AES_decrypt on one block of a buffer. */
  method DecryptVec(v: Vec, rk: seq<word>, rounds: nat, ghost g: Vec -> Vec) returns (t: Vec)
    requires rounds >= 2 && rounds % 2 == 0 && |rk| >= 4 * (rounds + 1)
    requires g == Decipher(KeysOf(rk, rounds))
    ensures t == g(v)
  {
    hide DecBlock, EqInvCipher, KeysOf, StateOf, BytesOf, BlockOf, VecOf;
    var block := Decrypt(BlockOf(v), rk, rounds);
    t := VecOf(block);
    DecBlockIs(v, KeysOf(rk, rounds));
  }

  /** out[n] = tmp[n] ^ ivec[n] for the first len bytes. */
  method XorOut(output: array<Wire.byte>, at: nat, len: nat, t: Vec, iv: Vec)
    requires len <= 16 && at + len <= output.Length
    modifies output
    ensures output[at..at + len] == XorVec(t, iv)[..len]
    ensures forall k :: 0 <= k < output.Length && !(at <= k < at + len) ==> output[k] == old(output[k])
  {
    hide XorByte;
    for n := 0 to len
      invariant forall k :: 0 <= k < output.Length && !(at <= k < at + len) ==> output[k] == old(output[k])
      invariant forall i :: 0 <= i < n ==> output[at + i] == XorVec(t, iv)[i]
    {
      output[at + n] := XorByte(t[n], iv[n]);
    }
  }

  /** One block, whole or partial, of the decrypting branch. */
  method DecryptStep(tmp: Vec, output: array<Wire.byte>, at: nat, len: nat, rk: seq<word>, rounds: nat, iv: Vec,
                     ghost g: Vec -> Vec)
    returns (t: Vec)
    requires len <= 16 && at + len <= output.Length
    requires rounds >= 2 && rounds % 2 == 0 && |rk| >= 4 * (rounds + 1)
    requires g == Decipher(KeysOf(rk, rounds))
    modifies output
    ensures t == g(tmp) && output[..at + len] == old(output[..at]) + XorVec(t, iv)[..len]
    ensures forall k :: at + len <= k < output.Length ==> output[k] == old(output[k])
  {
    hide Decipher, KeysOf, XorVec;
    ghost var done := output[..at];
    t := DecryptVec(tmp, rk, rounds, g);
    XorOut(output, at, len, t, iv);
    assert output[..at + len] == done + output[at..at + len];
  }

  method SetVec(ivec: array<Wire.byte>, v: Vec)
    requires ivec.Length == 16
    modifies ivec
    ensures ivec[..] == v
  {
    Copy16(ivec, 0, v);
    assert ivec[..] == ivec[0..16];
  }

  /** The decrypting branch: the plain text, and the vector of the last whole block, or the raw
      decryption of a partial one. The buffers may be the same. */
  method CbcDecrypt(input: array<Wire.byte>, output: array<Wire.byte>, length: nat, rk: seq<word>, rounds: nat,
                    ivec: array<Wire.byte>)
    requires Rounded(length) <= input.Length && length <= output.Length
    requires ivec.Length == 16 && ivec != input && ivec != output
    requires rounds >= 2 && rounds % 2 == 0 && |rk| >= 4 * (rounds + 1)
    modifies output, ivec
    ensures var r := CbcDec(old(input[..]), length, old(ivec[..]), Decipher(KeysOf(rk, rounds)));
            output[..length] == r.out && ivec[..] == r.iv
    ensures output[length..] == old(output[length..])
  {
    hide Decipher, KeysOf, XorVec, CbcDec, DecUpTo;
    ghost var g := Decipher(KeysOf(rk, rounds));
    ghost var s := input[..];
    ghost var all := CbcDec(s, length, ivec[..], g);
    DecStart(s, length, ivec[..], g);
    var at := 0;
    while length - at >= 16
      invariant 0 <= at <= length
      invariant forall k :: at <= k < input.Length ==> input[k] == s[k]
      invariant forall k :: length <= k < output.Length ==> output[k] == old(output[k])
      invariant DecUpTo(all, s, length, at, output[..at], ivec[..], g)
    {
      var tmp: Vec := input[at..at + 16];
      assert tmp == s[at..at + 16];
      DecNext(all, s, length, at, output[..at], ivec[..], g);
      var t := DecryptStep(tmp, output, at, 16, rk, rounds, ivec[..], g);
      WholeVec(XorVec(t, ivec[..]));
      SetVec(ivec, tmp);
      at := at + 16;
    }
    DecEnd(all, s, length, at, output[..at], ivec[..], g);
    if at < length {
      var tmp: Vec := input[at..at + 16];
      assert tmp == s[at..at + 16];
      var t := DecryptStep(tmp, output, at, length - at, rk, rounds, ivec[..], g);
      SetVec(ivec, t);
    }
  }

  lemma WholeVec(v: Vec)
    ensures v[..16] == v
  {
  }
}
