/** Arithmetic in GF(2^8) and the S-box, as sections 4.2 and 5.1.1 of FIPS 197 define them. */
module AesField {
  type byte = bv8

  /** Multiplication by x: the field polynomial is 0x11b. */
  function XTime(x: byte): (r: byte) {
    (x << 1) ^ (if x & 0x80 != 0 then 0x1b else 0)
  }

  function Mul(x: byte, y: byte): (r: byte) {
    var x1 := (x << 1) ^ (if x & 0x80 != 0 then 0x1b else 0);
    var x2 := (x1 << 1) ^ (if x1 & 0x80 != 0 then 0x1b else 0);
    var x3 := (x2 << 1) ^ (if x2 & 0x80 != 0 then 0x1b else 0);
    var x4 := (x3 << 1) ^ (if x3 & 0x80 != 0 then 0x1b else 0);
    var x5 := (x4 << 1) ^ (if x4 & 0x80 != 0 then 0x1b else 0);
    var x6 := (x5 << 1) ^ (if x5 & 0x80 != 0 then 0x1b else 0);
    var x7 := (x6 << 1) ^ (if x6 & 0x80 != 0 then 0x1b else 0);
    (if y & 0x01 != 0 then x else 0) ^ (if y & 0x02 != 0 then x1 else 0)
    ^ (if y & 0x04 != 0 then x2 else 0) ^ (if y & 0x08 != 0 then x3 else 0)
    ^ (if y & 0x10 != 0 then x4 else 0) ^ (if y & 0x20 != 0 then x5 else 0)
    ^ (if y & 0x40 != 0 then x6 else 0) ^ (if y & 0x80 != 0 then x7 else 0)
  }

  /** Squaring is linear: each bit goes to its square. */
  function Square(x: byte): (r: byte) {
    (if x & 0x01 != 0 then 0x01 else 0) ^ (if x & 0x02 != 0 then 0x04 else 0)
    ^ (if x & 0x04 != 0 then 0x10 else 0) ^ (if x & 0x08 != 0 then 0x40 else 0)
    ^ (if x & 0x10 != 0 then 0x1b else 0) ^ (if x & 0x20 != 0 then 0x6c else 0)
    ^ (if x & 0x40 != 0 then 0xab else 0) ^ (if x & 0x80 != 0 then 0x9a else 0)
  }

  lemma SquareIsMul0(x: byte) ensures x & 0xc0 == 0 ==> Square(x) == Mul(x, x) {}
  lemma SquareIsMul1(x: byte) ensures x & 0xc0 == 0x40 ==> Square(x) == Mul(x, x) {}
  lemma SquareIsMul2(x: byte) ensures x & 0xc0 == 0x80 ==> Square(x) == Mul(x, x) {}
  lemma SquareIsMul3(x: byte) ensures x & 0xc0 == 0xc0 ==> Square(x) == Mul(x, x) {}

  lemma SquareIsMul(x: byte)
    ensures Square(x) == Mul(x, x)
  {
    hide Square, Mul;
    if x & 0xc0 == 0 { SquareIsMul0(x); }
    else if x & 0xc0 == 0x40 { SquareIsMul1(x); }
    else if x & 0xc0 == 0x80 { SquareIsMul2(x); }
    else { SquareIsMul3(x); }
  }

  /** x to the power 254: the multiplicative inverse, and 0 for 0. */
  function Inverse(x: byte): (r: byte) {
    var x2 := Square(x);
    var x3 := Mul(x2, x);
    var x12 := Square(Square(x3));
    var x15 := Mul(x12, x3);
    var x240 := Square(Square(Square(Square(x15))));
    Mul(Mul(x240, x12), x2)
  }

  predicate Inverts(x: byte) {
    Inverse(Inverse(x)) == x && if x == 0 then Inverse(x) == 0 else Mul(Inverse(x), x) == 1
  }

  // One sixteenth of the bytes at a time.
  lemma Inverts0(x: byte) ensures x >> 4 == 0 ==> Inverts(x) {}
  lemma Inverts1(x: byte) ensures x >> 4 == 1 ==> Inverts(x) {}
  lemma Inverts2(x: byte) ensures x >> 4 == 2 ==> Inverts(x) {}
  lemma Inverts3(x: byte) ensures x >> 4 == 3 ==> Inverts(x) {}
  lemma Inverts4(x: byte) ensures x >> 4 == 4 ==> Inverts(x) {}
  lemma Inverts5(x: byte) ensures x >> 4 == 5 ==> Inverts(x) {}
  lemma Inverts6(x: byte) ensures x >> 4 == 6 ==> Inverts(x) {}
  lemma Inverts7(x: byte) ensures x >> 4 == 7 ==> Inverts(x) {}
  lemma Inverts8(x: byte) ensures x >> 4 == 8 ==> Inverts(x) {}
  lemma Inverts9(x: byte) ensures x >> 4 == 9 ==> Inverts(x) {}
  lemma InvertsA(x: byte) ensures x >> 4 == 10 ==> Inverts(x) {}
  lemma InvertsB(x: byte) ensures x >> 4 == 11 ==> Inverts(x) {}
  lemma InvertsC(x: byte) ensures x >> 4 == 12 ==> Inverts(x) {}
  lemma InvertsD(x: byte) ensures x >> 4 == 13 ==> Inverts(x) {}
  lemma InvertsE(x: byte) ensures x >> 4 == 14 ==> Inverts(x) {}
  lemma InvertsF(x: byte) ensures x >> 4 == 15 ==> Inverts(x) {}

  lemma InvertsAll(x: byte)
    ensures Inverts(x)
  {
    hide Inverts;
    match x >> 4
    case 0 => Inverts0(x);
    case 1 => Inverts1(x);
    case 2 => Inverts2(x);
    case 3 => Inverts3(x);
    case 4 => Inverts4(x);
    case 5 => Inverts5(x);
    case 6 => Inverts6(x);
    case 7 => Inverts7(x);
    case 8 => Inverts8(x);
    case 9 => Inverts9(x);
    case 10 => InvertsA(x);
    case 11 => InvertsB(x);
    case 12 => InvertsC(x);
    case 13 => InvertsD(x);
    case 14 => InvertsE(x);
    case _ => InvertsF(x);
  }

  lemma InverseIsInverse(x: byte)
    ensures if x == 0 then Inverse(x) == 0 else Mul(Inverse(x), x) == 1
  {
    InvertsAll(x);
    hide Inverse, Mul;
  }

  lemma InverseTwice(x: byte)
    ensures Inverse(Inverse(x)) == x
  {
    InvertsAll(x);
    hide Inverse, Mul;
  }

  function Affine(x: byte): (r: byte) {
    x ^ ((x << 1) | (x >> 7)) ^ ((x << 2) | (x >> 6)) ^ ((x << 3) | (x >> 5)) ^ ((x << 4) | (x >> 4)) ^ 0x63
  }

  function InvAffine(x: byte): (r: byte) {
    ((x << 1) | (x >> 7)) ^ ((x << 3) | (x >> 5)) ^ ((x << 6) | (x >> 2)) ^ 0x05
  }

  lemma AffineInverts(x: byte)
    ensures InvAffine(Affine(x)) == x && Affine(InvAffine(x)) == x
  {
  }

  function S(x: byte): (r: byte) {
    Affine(Inverse(x))
  }

  function Si(x: byte): (r: byte) {
    Inverse(InvAffine(x))
  }

  /** The inverse S-box undoes the S-box, and the S-box undoes it. */
  lemma SBoxInverts(x: byte)
    ensures Si(S(x)) == x && S(Si(x)) == x
  {
    AffineInverts(Inverse(x));
    InverseTwice(x);
    InverseTwice(InvAffine(x));
    AffineInverts(x);
  }

  // ---------------------------------------------------------------- addition

  /** Field addition. */
  function Add(x: byte, y: byte): (r: byte) {
    x ^ y
  }

  lemma AddAssociates(x: byte, y: byte, z: byte) ensures Add(Add(x, y), z) == Add(x, Add(y, z)) {}

  lemma AddCommutes(x: byte, y: byte) ensures Add(x, y) == Add(y, x) {}

  lemma AddCancels(x: byte, y: byte)
    ensures Add(x, 0) == x && Add(0, x) == x && Add(Add(x, y), y) == x
  {
  }

  lemma AddSwaps(a: byte, b: byte, c: byte, d: byte)
    ensures Add(Add(a, b), Add(c, d)) == Add(Add(a, c), Add(b, d))
  {
    hide Add;
    AddAssociates(a, b, Add(c, d));
    AddAssociates(b, c, d);
    AddCommutes(b, c);
    AddAssociates(c, b, d);
    AddAssociates(a, c, Add(b, d));
  }

  function Sum(a: byte, b: byte, c: byte, d: byte): (r: byte) {
    Add(Add(a, b), Add(c, d))
  }

  lemma SumSwaps(a: byte, b: byte, c: byte, d: byte, a': byte, b': byte, c': byte, d': byte)
    ensures Sum(Add(a, a'), Add(b, b'), Add(c, c'), Add(d, d')) == Add(Sum(a, b, c, d), Sum(a', b', c', d'))
  {
    hide Add;
    AddSwaps(a, a', b, b');
    AddSwaps(c, c', d, d');
    AddSwaps(Add(a, b), Add(a', b'), Add(c, d), Add(c', d'));
  }

  /** XTime without the branch: the top bit folds back into bits 0, 1, 3 and 4. */
  function Fold(x: byte): (r: byte) {
    (x << 1) ^ (x >> 7) ^ ((x >> 7) << 1) ^ ((x >> 7) << 3) ^ ((x >> 7) << 4)
  }

  lemma XTimeIsFold(x: byte) ensures XTime(x) == Fold(x) {}

  lemma FoldLinear(x: byte, y: byte) ensures Fold(x ^ y) == Fold(x) ^ Fold(y) {}

  lemma XTimeLinear(x: byte, y: byte)
    ensures XTime(Add(x, y)) == Add(XTime(x), XTime(y))
  {
    XTimeIsFold(x);
    XTimeIsFold(y);
    XTimeIsFold(x ^ y);
    FoldLinear(x, y);
  }

  // ---------------------------------------------------------------- MixColumns

  function X4(x: byte): (r: byte) { XTime(XTime(x)) }
  function X8(x: byte): (r: byte) { XTime(X4(x)) }
  function M2(x: byte): (r: byte) { XTime(x) }
  function M3(x: byte): (r: byte) { Add(XTime(x), x) }
  function M9(x: byte): (r: byte) { Sum(X8(x), x, 0, 0) }
  function Mb(x: byte): (r: byte) { Sum(X8(x), XTime(x), x, 0) }
  function Md(x: byte): (r: byte) { Sum(X8(x), X4(x), x, 0) }
  function Me(x: byte): (r: byte) { Sum(X8(x), X4(x), XTime(x), 0) }

  /** The coefficients of MixColumns and its inverse are field products. */
  lemma Multiples(x: byte)
    ensures M2(x) == Mul(x, 0x02) && M3(x) == Mul(x, 0x03)
    ensures M9(x) == Mul(x, 0x09) && Mb(x) == Mul(x, 0x0b) && Md(x) == Mul(x, 0x0d) && Me(x) == Mul(x, 0x0e)
  {
    Times2(x);
    Times3(x);
    Times9(x);
    TimesB(x);
    TimesD(x);
    TimesE(x);
    hide M2, M3, M9, Mb, Md, Me, Mul;
  }

  lemma Times2(x: byte) ensures M2(x) == Mul(x, 0x02) {}
  lemma Times3(x: byte) ensures M3(x) == Mul(x, 0x03) {}
  lemma Times9(x: byte) ensures M9(x) == Mul(x, 0x09) {}
  lemma TimesB(x: byte) ensures Mb(x) == Mul(x, 0x0b) {}
  lemma TimesD(x: byte) ensures Md(x) == Mul(x, 0x0d) {}
  lemma TimesE(x: byte) ensures Me(x) == Mul(x, 0x0e) {}

  lemma MultiplesLinear(x: byte, y: byte)
    ensures M9(Add(x, y)) == Add(M9(x), M9(y)) && Mb(Add(x, y)) == Add(Mb(x), Mb(y))
    ensures Md(Add(x, y)) == Add(Md(x), Md(y)) && Me(Add(x, y)) == Add(Me(x), Me(y))
  {
    var x1, x2, x3 := XTime(x), X4(x), X8(x);
    var y1, y2, y3 := XTime(y), X4(y), X8(y);
    AddCancels(0, 0);
    hide XTime, Add;
    XTimeLinear(x, y);
    XTimeLinear(x1, y1);
    XTimeLinear(x2, y2);
    SumSwaps(x3, x, 0, 0, y3, y, 0, 0);
    SumSwaps(x3, x1, x, 0, y3, y1, y, 0);
    SumSwaps(x3, x2, x, 0, y3, y2, y, 0);
    SumSwaps(x3, x2, x1, 0, y3, y2, y1, 0);
  }

  /** A column of the state. */
  datatype Col = Col(a: byte, b: byte, c: byte, d: byte)

  function AddCol(p: Col, q: Col): (r: Col) {
    Col(Add(p.a, q.a), Add(p.b, q.b), Add(p.c, q.c), Add(p.d, q.d))
  }

  function SumCol(p: Col, q: Col, r: Col, s: Col): (t: Col) {
    Col(Sum(p.a, q.a, r.a, s.a), Sum(p.b, q.b, r.b, s.b), Sum(p.c, q.c, r.c, s.c), Sum(p.d, q.d, r.d, s.d))
  }

  lemma AddColCancels(p: Col, q: Col)
    ensures AddCol(AddCol(p, q), q) == p
  {
    AddCancels(p.a, q.a);
    AddCancels(p.b, q.b);
    AddCancels(p.c, q.c);
    AddCancels(p.d, q.d);
  }

  function Mix(p: Col): (r: Col) {
    Col(Sum(M2(p.a), M3(p.b), p.c, p.d), Sum(p.a, M2(p.b), M3(p.c), p.d),
        Sum(p.a, p.b, M2(p.c), M3(p.d)), Sum(M3(p.a), p.b, p.c, M2(p.d)))
  }

  function InvMix(p: Col): (r: Col) {
    Col(Sum(Me(p.a), Mb(p.b), Md(p.c), M9(p.d)), Sum(M9(p.a), Me(p.b), Mb(p.c), Md(p.d)),
        Sum(Md(p.a), M9(p.b), Me(p.c), Mb(p.d)), Sum(Mb(p.a), Md(p.b), M9(p.c), Me(p.d)))
  }

  lemma InvMixLinear(p: Col, q: Col)
    ensures InvMix(AddCol(p, q)) == AddCol(InvMix(p), InvMix(q))
  {
    hide M9, Mb, Md, Me, Sum, Add;
    MultiplesLinear(p.a, q.a);
    MultiplesLinear(p.b, q.b);
    MultiplesLinear(p.c, q.c);
    MultiplesLinear(p.d, q.d);
    SumSwaps(Me(p.a), Mb(p.b), Md(p.c), M9(p.d), Me(q.a), Mb(q.b), Md(q.c), M9(q.d));
    SumSwaps(M9(p.a), Me(p.b), Mb(p.c), Md(p.d), M9(q.a), Me(q.b), Mb(q.c), Md(q.d));
    SumSwaps(Md(p.a), M9(p.b), Me(p.c), Mb(p.d), Md(q.a), M9(q.b), Me(q.c), Mb(q.d));
    SumSwaps(Mb(p.a), Md(p.b), M9(p.c), Me(p.d), Mb(q.a), Md(q.b), M9(q.c), Me(q.d));
  }

  lemma InvMixOfSum(p: Col, q: Col, r: Col, s: Col)
    ensures InvMix(SumCol(p, q, r, s)) == SumCol(InvMix(p), InvMix(q), InvMix(r), InvMix(s))
  {
    hide InvMix, Add;
    InvMixLinear(AddCol(p, q), AddCol(r, s));
    InvMixLinear(p, q);
    InvMixLinear(r, s);
  }

  // What MixColumns makes of one byte in each row.
  function MixA(x: byte): (r: Col) { Col(M2(x), x, x, M3(x)) }
  function MixB(x: byte): (r: Col) { Col(M3(x), M2(x), x, x) }
  function MixC(x: byte): (r: Col) { Col(x, M3(x), M2(x), x) }
  function MixD(x: byte): (r: Col) { Col(x, x, M3(x), M2(x)) }

  // The rows of the product of the two coefficient matrices, as sums of x and its first four multiples
  // by powers of the variable: each of these cancels or is left as the unit matrix says.

  /** How often each of the five is in a sum, the highest first. */
  datatype Pick = Pick(x4: nat, x3: nat, x2: nat, x1: nat, x: nat)

  function Of(n: nat, v: byte): (r: byte) { if n % 2 == 1 then v else 0 }

  function Term(m: Pick, x: byte): (r: byte) {
    Add(Sum(Of(m.x4, XTime(X8(x))), Of(m.x3, X8(x)), Of(m.x2, X4(x)), Of(m.x1, XTime(x))), Of(m.x, x))
  }

  function Both(m: Pick, n: Pick): (r: Pick) {
    Pick(m.x4 + n.x4, m.x3 + n.x3, m.x2 + n.x2, m.x1 + n.x1, m.x + n.x)
  }

  lemma Neutral(x: byte)
    ensures Add(x, 0) == x && Add(0, x) == x && Add(x, x) == 0 && Add(0, 0) == 0
  {
  }

  lemma OfAdds(m: nat, n: nat, v: byte)
    ensures Add(Of(m, v), Of(n, v)) == Of(m + n, v)
  {
    Neutral(v);
    hide Add;
  }

  lemma FiveSwap(a: byte, b: byte, c: byte, d: byte, e: byte, a': byte, b': byte, c': byte, d': byte, e': byte)
    ensures Add(Add(Sum(a, b, c, d), e), Add(Sum(a', b', c', d'), e')) ==
            Add(Sum(Add(a, a'), Add(b, b'), Add(c, c'), Add(d, d')), Add(e, e'))
  {
    hide Add, Sum;
    SumSwaps(a, b, c, d, a', b', c', d');
    AddSwaps(Sum(a, b, c, d), e, Sum(a', b', c', d'), e');
  }

  lemma TermsAdd(m: Pick, n: Pick, x: byte)
    ensures Add(Term(m, x), Term(n, x)) == Term(Both(m, n), x)
  {
    var x1, x2, x3, x4 := XTime(x), X4(x), X8(x), XTime(X8(x));
    hide Add, Sum, Of, XTime, X4, X8;
    FiveSwap(Of(m.x4, x4), Of(m.x3, x3), Of(m.x2, x2), Of(m.x1, x1), Of(m.x, x),
             Of(n.x4, x4), Of(n.x3, x3), Of(n.x2, x2), Of(n.x1, x1), Of(n.x, x));
    OfAdds(m.x4, n.x4, x4);
    OfAdds(m.x3, n.x3, x3);
    OfAdds(m.x2, n.x2, x2);
    OfAdds(m.x1, n.x1, x1);
    OfAdds(m.x, n.x, x);
  }

  const N9 := Pick(0, 1, 0, 0, 1)
  const NB := Pick(0, 1, 0, 1, 1)
  const ND := Pick(0, 1, 1, 0, 1)
  const NE := Pick(0, 1, 1, 1, 0)

  lemma MultiplesAre(x: byte)
    ensures M9(x) == Term(N9, x) && Mb(x) == Term(NB, x) && Md(x) == Term(ND, x) && Me(x) == Term(NE, x)
  {
    var x1, x2, x3 := XTime(x), X4(x), X8(x);
    Neutral(x);
    Neutral(x1);
    Neutral(x2);
    Neutral(x3);
    Neutral(Add(x3, x));
    Neutral(Add(x3, Add(x2, x1)));
    AddAssociates(x3, x2, x1);
    hide Add, XTime, X4, X8;
  }

  /** A sum for twice x is a sum for x. */
  function Doubled(m: Pick): (r: Pick) {
    Pick(m.x3, m.x2, m.x1, m.x, 0)
  }

  lemma TermDoubles(m: Pick, x: byte)
    requires m.x4 == 0
    ensures Term(m, XTime(x)) == Term(Doubled(m), x)
  {
    var a, b, c, d := Of(m.x3, XTime(X8(x))), Of(m.x2, X8(x)), Of(m.x1, X4(x)), Of(m.x, XTime(x));
    Neutral(a);
    Neutral(Sum(a, b, c, d));
    hide Add, XTime;
    AddAssociates(b, c, d);
    AddAssociates(a, Add(b, c), d);
    AddAssociates(a, b, Add(c, d));
  }

  lemma Rows(x: byte)
    ensures Sum(Me(M2(x)), Mb(x), Md(x), M9(M3(x))) == x
    ensures Sum(M9(M2(x)), Me(x), Mb(x), Md(M3(x))) == 0
    ensures Sum(Md(M2(x)), M9(x), Me(x), Mb(M3(x))) == 0
    ensures Sum(Mb(M2(x)), Md(x), M9(x), Me(M3(x))) == 0
  {
    MultiplesLinear(XTime(x), x);
    hide Add, Term, M9, Mb, Md, Me, XTime, Doubled, Both;
    RowIs(NE, NB, ND, N9, x);
    RowIs(N9, NE, NB, ND, x);
    RowIs(ND, N9, NE, NB, x);
    RowIs(NB, ND, N9, NE, x);
    MultiplesAre(x);
    MultiplesAre(XTime(x));
    RowPickIs(NE, NB, ND, N9);
    RowPickIs(N9, NE, NB, ND);
    RowPickIs(ND, N9, NE, NB);
    RowPickIs(NB, ND, N9, NE);
    hide RowPick;
    Cancels(Pick(2, 4, 2, 2, 3), x);
    Cancels(Pick(2, 4, 2, 4, 2), x);
    Cancels(Pick(2, 4, 4, 2, 2), x);
  }

  function RowPick(a: Pick, b: Pick, c: Pick, d: Pick): (r: Pick) {
    Both(Both(Doubled(a), b), Both(c, Both(Doubled(d), d)))
  }

  lemma RowPickIs(a: Pick, b: Pick, c: Pick, d: Pick)
    ensures RowPick(a, b, c, d) ==
            Pick(a.x3 + b.x4 + c.x4 + d.x3 + d.x4, a.x2 + b.x3 + c.x3 + d.x2 + d.x3, a.x1 + b.x2 + c.x2 + d.x1 + d.x2,
                 a.x + b.x1 + c.x1 + d.x + d.x1, b.x + c.x + d.x)
  {
  }

  /** One row: coefficient a of twice x, b and c of x, and d of three times x. */
  lemma RowIs(a: Pick, b: Pick, c: Pick, d: Pick, x: byte)
    requires a.x4 == 0 && d.x4 == 0
    ensures Sum(Term(a, XTime(x)), Term(b, x), Term(c, x), Add(Term(d, XTime(x)), Term(d, x))) ==
            Term(RowPick(a, b, c, d), x)
  {
    hide Add, Term, XTime, Doubled, Both;
    TermDoubles(a, x);
    TermDoubles(d, x);
    TermsAdd(Doubled(d), d, x);
    TermsAdd(Doubled(a), b, x);
    TermsAdd(c, Both(Doubled(d), d), x);
    TermsAdd(Both(Doubled(a), b), Both(c, Both(Doubled(d), d)), x);
  }

  /** What is in a sum an even number of times cancels. */
  lemma Cancels(m: Pick, x: byte)
    requires m.x4 % 2 == m.x3 % 2 == m.x2 % 2 == m.x1 % 2 == 0
    ensures Term(m, x) == if m.x % 2 == 1 then x else 0
  {
    Neutral(x);
    hide Add, XTime;
  }

  lemma SumTurns(a: byte, b: byte, c: byte, d: byte)
    ensures Sum(a, b, c, d) == Sum(b, c, d, a) == Sum(c, d, a, b) == Sum(d, a, b, c)
  {
    hide Add;
    AddCommutes(Add(a, b), Add(c, d));
    AddCommutes(Add(b, c), Add(d, a));
    AddSwaps(a, b, c, d);
    AddSwaps(b, c, d, a);
    AddCommutes(a, c);
    AddCommutes(b, d);
    AddCommutes(Add(a, c), Add(b, d));
    AddSwaps(d, a, b, c);
    AddCommutes(Add(d, b), Add(a, c));
  }

  lemma InvMixOfByte(x: byte)
    ensures InvMix(MixA(x)) == Col(x, 0, 0, 0)
    ensures InvMix(MixB(x)) == Col(0, x, 0, 0)
    ensures InvMix(MixC(x)) == Col(0, 0, x, 0)
    ensures InvMix(MixD(x)) == Col(0, 0, 0, x)
  {
    hide M2, M3, M9, Mb, Md, Me, Sum;
    Rows(x);
    SumTurns(Me(M2(x)), Mb(x), Md(x), M9(M3(x)));
    SumTurns(M9(M2(x)), Me(x), Mb(x), Md(M3(x)));
    SumTurns(Md(M2(x)), M9(x), Me(x), Mb(M3(x)));
    SumTurns(Mb(M2(x)), Md(x), M9(x), Me(M3(x)));
  }

  lemma MixOfBytes(p: Col)
    ensures Mix(p) == SumCol(MixA(p.a), MixB(p.b), MixC(p.c), MixD(p.d))
  {
    hide M2, M3, Sum;
  }

  /** InvMixColumns undoes MixColumns, on each column. */
  lemma InvMixInverts(p: Col)
    ensures InvMix(Mix(p)) == p
  {
    hide InvMix, Mix, MixA, MixB, MixC, MixD, Add;
    MixOfBytes(p);
    InvMixOfSum(MixA(p.a), MixB(p.b), MixC(p.c), MixD(p.d));
    InvMixOfByte(p.a);
    InvMixOfByte(p.b);
    InvMixOfByte(p.c);
    InvMixOfByte(p.d);
    AddCancels(p.a, 0);
    AddCancels(p.b, 0);
    AddCancels(p.c, 0);
    AddCancels(p.d, 0);
    AddCancels(0, 0);
  }
}
