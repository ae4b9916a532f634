/** The values that FIPS 197 lists: the S-box of its figure 7, the cipher example of its appendix B and the
    key expansions of its appendix A. They fix which field, S-box, matrix, byte order and schedule the
    definitions describe. */
module AesVectors {
  import opened AesField
  import opened AesCipher
  import opened AesTables
  import opened AesKey

  // ---------------------------------------------------------------- figure 7

  predicate Row0() {
    && S(0x00) == 0x63 && S(0x01) == 0x7c && S(0x02) == 0x77 && S(0x03) == 0x7b
    && S(0x04) == 0xf2 && S(0x05) == 0x6b && S(0x06) == 0x6f && S(0x07) == 0xc5
    && S(0x08) == 0x30 && S(0x09) == 0x01 && S(0x0a) == 0x67 && S(0x0b) == 0x2b
    && S(0x0c) == 0xfe && S(0x0d) == 0xd7 && S(0x0e) == 0xab && S(0x0f) == 0x76
  }

  predicate Row1() {
    && S(0x10) == 0xca && S(0x11) == 0x82 && S(0x12) == 0xc9 && S(0x13) == 0x7d
    && S(0x14) == 0xfa && S(0x15) == 0x59 && S(0x16) == 0x47 && S(0x17) == 0xf0
    && S(0x18) == 0xad && S(0x19) == 0xd4 && S(0x1a) == 0xa2 && S(0x1b) == 0xaf
    && S(0x1c) == 0x9c && S(0x1d) == 0xa4 && S(0x1e) == 0x72 && S(0x1f) == 0xc0
  }

  predicate Row2() {
    && S(0x20) == 0xb7 && S(0x21) == 0xfd && S(0x22) == 0x93 && S(0x23) == 0x26
    && S(0x24) == 0x36 && S(0x25) == 0x3f && S(0x26) == 0xf7 && S(0x27) == 0xcc
    && S(0x28) == 0x34 && S(0x29) == 0xa5 && S(0x2a) == 0xe5 && S(0x2b) == 0xf1
    && S(0x2c) == 0x71 && S(0x2d) == 0xd8 && S(0x2e) == 0x31 && S(0x2f) == 0x15
  }

  predicate Row3() {
    && S(0x30) == 0x04 && S(0x31) == 0xc7 && S(0x32) == 0x23 && S(0x33) == 0xc3
    && S(0x34) == 0x18 && S(0x35) == 0x96 && S(0x36) == 0x05 && S(0x37) == 0x9a
    && S(0x38) == 0x07 && S(0x39) == 0x12 && S(0x3a) == 0x80 && S(0x3b) == 0xe2
    && S(0x3c) == 0xeb && S(0x3d) == 0x27 && S(0x3e) == 0xb2 && S(0x3f) == 0x75
  }

  predicate Row4() {
    && S(0x40) == 0x09 && S(0x41) == 0x83 && S(0x42) == 0x2c && S(0x43) == 0x1a
    && S(0x44) == 0x1b && S(0x45) == 0x6e && S(0x46) == 0x5a && S(0x47) == 0xa0
    && S(0x48) == 0x52 && S(0x49) == 0x3b && S(0x4a) == 0xd6 && S(0x4b) == 0xb3
    && S(0x4c) == 0x29 && S(0x4d) == 0xe3 && S(0x4e) == 0x2f && S(0x4f) == 0x84
  }

  predicate Row5() {
    && S(0x50) == 0x53 && S(0x51) == 0xd1 && S(0x52) == 0x00 && S(0x53) == 0xed
    && S(0x54) == 0x20 && S(0x55) == 0xfc && S(0x56) == 0xb1 && S(0x57) == 0x5b
    && S(0x58) == 0x6a && S(0x59) == 0xcb && S(0x5a) == 0xbe && S(0x5b) == 0x39
    && S(0x5c) == 0x4a && S(0x5d) == 0x4c && S(0x5e) == 0x58 && S(0x5f) == 0xcf
  }

  predicate Row6() {
    && S(0x60) == 0xd0 && S(0x61) == 0xef && S(0x62) == 0xaa && S(0x63) == 0xfb
    && S(0x64) == 0x43 && S(0x65) == 0x4d && S(0x66) == 0x33 && S(0x67) == 0x85
    && S(0x68) == 0x45 && S(0x69) == 0xf9 && S(0x6a) == 0x02 && S(0x6b) == 0x7f
    && S(0x6c) == 0x50 && S(0x6d) == 0x3c && S(0x6e) == 0x9f && S(0x6f) == 0xa8
  }

  predicate Row7() {
    && S(0x70) == 0x51 && S(0x71) == 0xa3 && S(0x72) == 0x40 && S(0x73) == 0x8f
    && S(0x74) == 0x92 && S(0x75) == 0x9d && S(0x76) == 0x38 && S(0x77) == 0xf5
    && S(0x78) == 0xbc && S(0x79) == 0xb6 && S(0x7a) == 0xda && S(0x7b) == 0x21
    && S(0x7c) == 0x10 && S(0x7d) == 0xff && S(0x7e) == 0xf3 && S(0x7f) == 0xd2
  }

  predicate Row8() {
    && S(0x80) == 0xcd && S(0x81) == 0x0c && S(0x82) == 0x13 && S(0x83) == 0xec
    && S(0x84) == 0x5f && S(0x85) == 0x97 && S(0x86) == 0x44 && S(0x87) == 0x17
    && S(0x88) == 0xc4 && S(0x89) == 0xa7 && S(0x8a) == 0x7e && S(0x8b) == 0x3d
    && S(0x8c) == 0x64 && S(0x8d) == 0x5d && S(0x8e) == 0x19 && S(0x8f) == 0x73
  }

  predicate Row9() {
    && S(0x90) == 0x60 && S(0x91) == 0x81 && S(0x92) == 0x4f && S(0x93) == 0xdc
    && S(0x94) == 0x22 && S(0x95) == 0x2a && S(0x96) == 0x90 && S(0x97) == 0x88
    && S(0x98) == 0x46 && S(0x99) == 0xee && S(0x9a) == 0xb8 && S(0x9b) == 0x14
    && S(0x9c) == 0xde && S(0x9d) == 0x5e && S(0x9e) == 0x0b && S(0x9f) == 0xdb
  }

  predicate RowA() {
    && S(0xa0) == 0xe0 && S(0xa1) == 0x32 && S(0xa2) == 0x3a && S(0xa3) == 0x0a
    && S(0xa4) == 0x49 && S(0xa5) == 0x06 && S(0xa6) == 0x24 && S(0xa7) == 0x5c
    && S(0xa8) == 0xc2 && S(0xa9) == 0xd3 && S(0xaa) == 0xac && S(0xab) == 0x62
    && S(0xac) == 0x91 && S(0xad) == 0x95 && S(0xae) == 0xe4 && S(0xaf) == 0x79
  }

  predicate RowB() {
    && S(0xb0) == 0xe7 && S(0xb1) == 0xc8 && S(0xb2) == 0x37 && S(0xb3) == 0x6d
    && S(0xb4) == 0x8d && S(0xb5) == 0xd5 && S(0xb6) == 0x4e && S(0xb7) == 0xa9
    && S(0xb8) == 0x6c && S(0xb9) == 0x56 && S(0xba) == 0xf4 && S(0xbb) == 0xea
    && S(0xbc) == 0x65 && S(0xbd) == 0x7a && S(0xbe) == 0xae && S(0xbf) == 0x08
  }

  predicate RowC() {
    && S(0xc0) == 0xba && S(0xc1) == 0x78 && S(0xc2) == 0x25 && S(0xc3) == 0x2e
    && S(0xc4) == 0x1c && S(0xc5) == 0xa6 && S(0xc6) == 0xb4 && S(0xc7) == 0xc6
    && S(0xc8) == 0xe8 && S(0xc9) == 0xdd && S(0xca) == 0x74 && S(0xcb) == 0x1f
    && S(0xcc) == 0x4b && S(0xcd) == 0xbd && S(0xce) == 0x8b && S(0xcf) == 0x8a
  }

  predicate RowD() {
    && S(0xd0) == 0x70 && S(0xd1) == 0x3e && S(0xd2) == 0xb5 && S(0xd3) == 0x66
    && S(0xd4) == 0x48 && S(0xd5) == 0x03 && S(0xd6) == 0xf6 && S(0xd7) == 0x0e
    && S(0xd8) == 0x61 && S(0xd9) == 0x35 && S(0xda) == 0x57 && S(0xdb) == 0xb9
    && S(0xdc) == 0x86 && S(0xdd) == 0xc1 && S(0xde) == 0x1d && S(0xdf) == 0x9e
  }

  predicate RowE() {
    && S(0xe0) == 0xe1 && S(0xe1) == 0xf8 && S(0xe2) == 0x98 && S(0xe3) == 0x11
    && S(0xe4) == 0x69 && S(0xe5) == 0xd9 && S(0xe6) == 0x8e && S(0xe7) == 0x94
    && S(0xe8) == 0x9b && S(0xe9) == 0x1e && S(0xea) == 0x87 && S(0xeb) == 0xe9
    && S(0xec) == 0xce && S(0xed) == 0x55 && S(0xee) == 0x28 && S(0xef) == 0xdf
  }

  predicate RowF() {
    && S(0xf0) == 0x8c && S(0xf1) == 0xa1 && S(0xf2) == 0x89 && S(0xf3) == 0x0d
    && S(0xf4) == 0xbf && S(0xf5) == 0xe6 && S(0xf6) == 0x42 && S(0xf7) == 0x68
    && S(0xf8) == 0x41 && S(0xf9) == 0x99 && S(0xfa) == 0x2d && S(0xfb) == 0x0f
    && S(0xfc) == 0xb0 && S(0xfd) == 0x54 && S(0xfe) == 0xbb && S(0xff) == 0x16
  }

  lemma RowIs0()
    ensures Row0()
  {
    InverseIsInverse(0x00); InverseIsInverse(0x01); InverseIsInverse(0x02); InverseIsInverse(0x03);
    InverseIsInverse(0x04); InverseIsInverse(0x05); InverseIsInverse(0x06); InverseIsInverse(0x07);
    InverseIsInverse(0x08); InverseIsInverse(0x09); InverseIsInverse(0x0a); InverseIsInverse(0x0b);
    InverseIsInverse(0x0c); InverseIsInverse(0x0d); InverseIsInverse(0x0e); InverseIsInverse(0x0f);
    hide Inverse;
  }

  lemma RowIs1()
    ensures Row1()
  {
    InverseIsInverse(0x10); InverseIsInverse(0x11); InverseIsInverse(0x12); InverseIsInverse(0x13);
    InverseIsInverse(0x14); InverseIsInverse(0x15); InverseIsInverse(0x16); InverseIsInverse(0x17);
    InverseIsInverse(0x18); InverseIsInverse(0x19); InverseIsInverse(0x1a); InverseIsInverse(0x1b);
    InverseIsInverse(0x1c); InverseIsInverse(0x1d); InverseIsInverse(0x1e); InverseIsInverse(0x1f);
    hide Inverse;
  }

  lemma RowIs2()
    ensures Row2()
  {
    InverseIsInverse(0x20); InverseIsInverse(0x21); InverseIsInverse(0x22); InverseIsInverse(0x23);
    InverseIsInverse(0x24); InverseIsInverse(0x25); InverseIsInverse(0x26); InverseIsInverse(0x27);
    InverseIsInverse(0x28); InverseIsInverse(0x29); InverseIsInverse(0x2a); InverseIsInverse(0x2b);
    InverseIsInverse(0x2c); InverseIsInverse(0x2d); InverseIsInverse(0x2e); InverseIsInverse(0x2f);
    hide Inverse;
  }

  lemma RowIs3()
    ensures Row3()
  {
    InverseIsInverse(0x30); InverseIsInverse(0x31); InverseIsInverse(0x32); InverseIsInverse(0x33);
    InverseIsInverse(0x34); InverseIsInverse(0x35); InverseIsInverse(0x36); InverseIsInverse(0x37);
    InverseIsInverse(0x38); InverseIsInverse(0x39); InverseIsInverse(0x3a); InverseIsInverse(0x3b);
    InverseIsInverse(0x3c); InverseIsInverse(0x3d); InverseIsInverse(0x3e); InverseIsInverse(0x3f);
    hide Inverse;
  }

  lemma RowIs4()
    ensures Row4()
  {
    InverseIsInverse(0x40); InverseIsInverse(0x41); InverseIsInverse(0x42); InverseIsInverse(0x43);
    InverseIsInverse(0x44); InverseIsInverse(0x45); InverseIsInverse(0x46); InverseIsInverse(0x47);
    InverseIsInverse(0x48); InverseIsInverse(0x49); InverseIsInverse(0x4a); InverseIsInverse(0x4b);
    InverseIsInverse(0x4c); InverseIsInverse(0x4d); InverseIsInverse(0x4e); InverseIsInverse(0x4f);
    hide Inverse;
  }

  lemma RowIs5()
    ensures Row5()
  {
    InverseIsInverse(0x50); InverseIsInverse(0x51); InverseIsInverse(0x52); InverseIsInverse(0x53);
    InverseIsInverse(0x54); InverseIsInverse(0x55); InverseIsInverse(0x56); InverseIsInverse(0x57);
    InverseIsInverse(0x58); InverseIsInverse(0x59); InverseIsInverse(0x5a); InverseIsInverse(0x5b);
    InverseIsInverse(0x5c); InverseIsInverse(0x5d); InverseIsInverse(0x5e); InverseIsInverse(0x5f);
    hide Inverse;
  }

  lemma RowIs6()
    ensures Row6()
  {
    InverseIsInverse(0x60); InverseIsInverse(0x61); InverseIsInverse(0x62); InverseIsInverse(0x63);
    InverseIsInverse(0x64); InverseIsInverse(0x65); InverseIsInverse(0x66); InverseIsInverse(0x67);
    InverseIsInverse(0x68); InverseIsInverse(0x69); InverseIsInverse(0x6a); InverseIsInverse(0x6b);
    InverseIsInverse(0x6c); InverseIsInverse(0x6d); InverseIsInverse(0x6e); InverseIsInverse(0x6f);
    hide Inverse;
  }

  lemma RowIs7()
    ensures Row7()
  {
    InverseIsInverse(0x70); InverseIsInverse(0x71); InverseIsInverse(0x72); InverseIsInverse(0x73);
    InverseIsInverse(0x74); InverseIsInverse(0x75); InverseIsInverse(0x76); InverseIsInverse(0x77);
    InverseIsInverse(0x78); InverseIsInverse(0x79); InverseIsInverse(0x7a); InverseIsInverse(0x7b);
    InverseIsInverse(0x7c); InverseIsInverse(0x7d); InverseIsInverse(0x7e); InverseIsInverse(0x7f);
    hide Inverse;
  }

  lemma RowIs8()
    ensures Row8()
  {
    InverseIsInverse(0x80); InverseIsInverse(0x81); InverseIsInverse(0x82); InverseIsInverse(0x83);
    InverseIsInverse(0x84); InverseIsInverse(0x85); InverseIsInverse(0x86); InverseIsInverse(0x87);
    InverseIsInverse(0x88); InverseIsInverse(0x89); InverseIsInverse(0x8a); InverseIsInverse(0x8b);
    InverseIsInverse(0x8c); InverseIsInverse(0x8d); InverseIsInverse(0x8e); InverseIsInverse(0x8f);
    hide Inverse;
  }

  lemma RowIs9()
    ensures Row9()
  {
    InverseIsInverse(0x90); InverseIsInverse(0x91); InverseIsInverse(0x92); InverseIsInverse(0x93);
    InverseIsInverse(0x94); InverseIsInverse(0x95); InverseIsInverse(0x96); InverseIsInverse(0x97);
    InverseIsInverse(0x98); InverseIsInverse(0x99); InverseIsInverse(0x9a); InverseIsInverse(0x9b);
    InverseIsInverse(0x9c); InverseIsInverse(0x9d); InverseIsInverse(0x9e); InverseIsInverse(0x9f);
    hide Inverse;
  }

  lemma RowIsA()
    ensures RowA()
  {
    InverseIsInverse(0xa0); InverseIsInverse(0xa1); InverseIsInverse(0xa2); InverseIsInverse(0xa3);
    InverseIsInverse(0xa4); InverseIsInverse(0xa5); InverseIsInverse(0xa6); InverseIsInverse(0xa7);
    InverseIsInverse(0xa8); InverseIsInverse(0xa9); InverseIsInverse(0xaa); InverseIsInverse(0xab);
    InverseIsInverse(0xac); InverseIsInverse(0xad); InverseIsInverse(0xae); InverseIsInverse(0xaf);
    hide Inverse;
  }

  lemma RowIsB()
    ensures RowB()
  {
    InverseIsInverse(0xb0); InverseIsInverse(0xb1); InverseIsInverse(0xb2); InverseIsInverse(0xb3);
    InverseIsInverse(0xb4); InverseIsInverse(0xb5); InverseIsInverse(0xb6); InverseIsInverse(0xb7);
    InverseIsInverse(0xb8); InverseIsInverse(0xb9); InverseIsInverse(0xba); InverseIsInverse(0xbb);
    InverseIsInverse(0xbc); InverseIsInverse(0xbd); InverseIsInverse(0xbe); InverseIsInverse(0xbf);
    hide Inverse;
  }

  lemma RowIsC()
    ensures RowC()
  {
    InverseIsInverse(0xc0); InverseIsInverse(0xc1); InverseIsInverse(0xc2); InverseIsInverse(0xc3);
    InverseIsInverse(0xc4); InverseIsInverse(0xc5); InverseIsInverse(0xc6); InverseIsInverse(0xc7);
    InverseIsInverse(0xc8); InverseIsInverse(0xc9); InverseIsInverse(0xca); InverseIsInverse(0xcb);
    InverseIsInverse(0xcc); InverseIsInverse(0xcd); InverseIsInverse(0xce); InverseIsInverse(0xcf);
    hide Inverse;
  }

  lemma RowIsD()
    ensures RowD()
  {
    InverseIsInverse(0xd0); InverseIsInverse(0xd1); InverseIsInverse(0xd2); InverseIsInverse(0xd3);
    InverseIsInverse(0xd4); InverseIsInverse(0xd5); InverseIsInverse(0xd6); InverseIsInverse(0xd7);
    InverseIsInverse(0xd8); InverseIsInverse(0xd9); InverseIsInverse(0xda); InverseIsInverse(0xdb);
    InverseIsInverse(0xdc); InverseIsInverse(0xdd); InverseIsInverse(0xde); InverseIsInverse(0xdf);
    hide Inverse;
  }

  lemma RowIsE()
    ensures RowE()
  {
    InverseIsInverse(0xe0); InverseIsInverse(0xe1); InverseIsInverse(0xe2); InverseIsInverse(0xe3);
    InverseIsInverse(0xe4); InverseIsInverse(0xe5); InverseIsInverse(0xe6); InverseIsInverse(0xe7);
    InverseIsInverse(0xe8); InverseIsInverse(0xe9); InverseIsInverse(0xea); InverseIsInverse(0xeb);
    InverseIsInverse(0xec); InverseIsInverse(0xed); InverseIsInverse(0xee); InverseIsInverse(0xef);
    hide Inverse;
  }

  lemma RowIsF()
    ensures RowF()
  {
    InverseIsInverse(0xf0); InverseIsInverse(0xf1); InverseIsInverse(0xf2); InverseIsInverse(0xf3);
    InverseIsInverse(0xf4); InverseIsInverse(0xf5); InverseIsInverse(0xf6); InverseIsInverse(0xf7);
    InverseIsInverse(0xf8); InverseIsInverse(0xf9); InverseIsInverse(0xfa); InverseIsInverse(0xfb);
    InverseIsInverse(0xfc); InverseIsInverse(0xfd); InverseIsInverse(0xfe); InverseIsInverse(0xff);
    hide Inverse;
  }

  /** The S-box is that of figure 7. */
  lemma SBox()
    ensures Row0() && Row1() && Row2() && Row3() && Row4() && Row5() && Row6() && Row7()
    ensures Row8() && Row9() && RowA() && RowB() && RowC() && RowD() && RowE() && RowF()
  {
    RowIs0(); RowIs1(); RowIs2(); RowIs3();
    RowIs4(); RowIs5(); RowIs6(); RowIs7();
    RowIs8(); RowIs9(); RowIsA(); RowIsB();
    RowIsC(); RowIsD(); RowIsE(); RowIsF();
  }

  /** The affine map, by its values: 0x63 at zero, and the columns of the matrix of section 5.1.1. */
  lemma AffineValues()
    ensures Affine(0) == 0x63
    ensures Affine(0x01) == 0x7c && Affine(0x02) == 0x5d && Affine(0x04) == 0x1f && Affine(0x08) == 0x9b
    ensures Affine(0x10) == 0x92 && Affine(0x20) == 0x80 && Affine(0x40) == 0xa4 && Affine(0x80) == 0xec
  {
  }

  // The rotations of the affine map are linear, and so is their sum.
  function Turn(x: byte, k: nat): (r: byte)
    requires 1 <= k <= 4
  {
    match k
    case 1 => (x << 1) | (x >> 7)
    case 2 => (x << 2) | (x >> 6)
    case 3 => (x << 3) | (x >> 5)
    case _ => (x << 4) | (x >> 4)
  }

  lemma Turn1Linear(x: byte, y: byte) ensures Turn(Add(x, y), 1) == Add(Turn(x, 1), Turn(y, 1)) {}
  lemma Turn2Linear(x: byte, y: byte) ensures Turn(Add(x, y), 2) == Add(Turn(x, 2), Turn(y, 2)) {}
  lemma Turn3Linear(x: byte, y: byte) ensures Turn(Add(x, y), 3) == Add(Turn(x, 3), Turn(y, 3)) {}
  lemma Turn4Linear(x: byte, y: byte) ensures Turn(Add(x, y), 4) == Add(Turn(x, 4), Turn(y, 4)) {}

  function Linear(x: byte): (r: byte) {
    Add(Sum(x, Turn(x, 1), Turn(x, 2), Turn(x, 3)), Turn(x, 4))
  }

  lemma AffineIsLinear(x: byte) ensures Affine(x) == Add(Linear(x), 0x63) {}

  lemma LinearAdds(x: byte, y: byte)
    ensures Linear(Add(x, y)) == Add(Linear(x), Linear(y))
  {
    hide Add, Sum, Turn;
    Turn1Linear(x, y);
    Turn2Linear(x, y);
    Turn3Linear(x, y);
    Turn4Linear(x, y);
    FiveSwap(x, Turn(x, 1), Turn(x, 2), Turn(x, 3), Turn(x, 4), y, Turn(y, 1), Turn(y, 2), Turn(y, 3), Turn(y, 4));
  }

  lemma ThreeConstants(a: byte, b: byte) ensures Add(a, b) ^ 0x63 == (a ^ 0x63) ^ (b ^ 0x63) ^ 0x63 {}

  /** The map is affine. */
  lemma AffineAdds(x: byte, y: byte)
    ensures Affine(x ^ y) == Affine(x) ^ Affine(y) ^ Affine(0)
  {
    AffineValues();
    AffineIsLinear(x);
    AffineIsLinear(y);
    AffineIsLinear(Add(x, y));
    LinearAdds(x, y);
    ThreeConstants(Linear(x), Linear(y));
    hide Affine, Linear;
  }

  /** Multiplication by the variable, modulo the polynomial 0x11b. */
  lemma XTimeValues(x: byte)
    ensures XTime(x) as bv9 == if x < 0x80 then (x as bv9) << 1 else ((x as bv9) << 1) ^ 0x11b
  {
  }

  /** A word holds its bytes with the first one on top. */
  lemma ByteOrder()
    ensures Abs(0x01020304) == Col(0x01, 0x02, 0x03, 0x04) && Word(Col(0x01, 0x02, 0x03, 0x04)) == 0x01020304
  {
  }

  /** The first entries of the tables of aes.c. */
  lemma TableValues()
    ensures Te0(0) == 0xc66363a5 && Te1(0) == 0xa5c66363 && Te2(0) == 0x63a5c663 && Te3(0) == 0x6363a5c6
    ensures Te4(0) == 0x63636363 && Td4(0) == 0x52525252
    ensures Td0(0) == 0x51f4a750 && Td1(0) == 0x5051f4a7 && Td2(0) == 0xa75051f4 && Td3(0) == 0xf4a75051
  {
    SBox();
    SBoxInverts(0x52);
    hide S, Si;
  }

  // ---------------------------------------------------------------- appendix B

  // The state at the start of each round, after SubBytes, after MixColumns, and the round keys.
  const A0 := State(Col(0x19, 0x3d, 0xe3, 0xbe), Col(0xa0, 0xf4, 0xe2, 0x2b),
                    Col(0x9a, 0xc6, 0x8d, 0x2a), Col(0xe9, 0xf8, 0x48, 0x08))
  const A1 := State(Col(0xa4, 0x9c, 0x7f, 0xf2), Col(0x68, 0x9f, 0x35, 0x2b),
                    Col(0x6b, 0x5b, 0xea, 0x43), Col(0x02, 0x6a, 0x50, 0x49))
  const A2 := State(Col(0xaa, 0x8f, 0x5f, 0x03), Col(0x61, 0xdd, 0xe3, 0xef),
                    Col(0x82, 0xd2, 0x4a, 0xd2), Col(0x68, 0x32, 0x46, 0x9a))
  const A3 := State(Col(0x48, 0x6c, 0x4e, 0xee), Col(0x67, 0x1d, 0x9d, 0x0d),
                    Col(0x4d, 0xe3, 0xb1, 0x38), Col(0xd6, 0x5f, 0x58, 0xe7))
  const A4 := State(Col(0xe0, 0x92, 0x7f, 0xe8), Col(0xc8, 0x63, 0x63, 0xc0),
                    Col(0xd9, 0xb1, 0x35, 0x50), Col(0x85, 0xb8, 0xbe, 0x01))
  const A5 := State(Col(0xf1, 0x00, 0x6f, 0x55), Col(0xc1, 0x92, 0x4c, 0xef),
                    Col(0x7c, 0xc8, 0x8b, 0x32), Col(0x5d, 0xb5, 0xd5, 0x0c))
  const A6 := State(Col(0x26, 0x0e, 0x2e, 0x17), Col(0x3d, 0x41, 0xb7, 0x7d),
                    Col(0xe8, 0x64, 0x72, 0xa9), Col(0xfd, 0xd2, 0x8b, 0x25))
  const A7 := State(Col(0x5a, 0x41, 0x42, 0xb1), Col(0x19, 0x49, 0xdc, 0x1f),
                    Col(0xa3, 0xe0, 0x19, 0x65), Col(0x7a, 0x8c, 0x04, 0x0c))
  const A8 := State(Col(0xea, 0x83, 0x5c, 0xf0), Col(0x04, 0x45, 0x33, 0x2d),
                    Col(0x65, 0x5d, 0x98, 0xad), Col(0x85, 0x96, 0xb0, 0xc5))
  const A9 := State(Col(0xeb, 0x40, 0xf2, 0x1e), Col(0x59, 0x2e, 0x38, 0x84),
                    Col(0x8b, 0xa1, 0x13, 0xe7), Col(0x1b, 0xc3, 0x42, 0xd2))
  const B0 := State(Col(0xd4, 0x27, 0x11, 0xae), Col(0xe0, 0xbf, 0x98, 0xf1),
                    Col(0xb8, 0xb4, 0x5d, 0xe5), Col(0x1e, 0x41, 0x52, 0x30))
  const B1 := State(Col(0x49, 0xde, 0xd2, 0x89), Col(0x45, 0xdb, 0x96, 0xf1),
                    Col(0x7f, 0x39, 0x87, 0x1a), Col(0x77, 0x02, 0x53, 0x3b))
  const B2 := State(Col(0xac, 0x73, 0xcf, 0x7b), Col(0xef, 0xc1, 0x11, 0xdf),
                    Col(0x13, 0xb5, 0xd6, 0xb5), Col(0x45, 0x23, 0x5a, 0xb8))
  const B3 := State(Col(0x52, 0x50, 0x2f, 0x28), Col(0x85, 0xa4, 0x5e, 0xd7),
                    Col(0xe3, 0x11, 0xc8, 0x07), Col(0xf6, 0xcf, 0x6a, 0x94))
  const B4 := State(Col(0xe1, 0x4f, 0xd2, 0x9b), Col(0xe8, 0xfb, 0xfb, 0xba),
                    Col(0x35, 0xc8, 0x96, 0x53), Col(0x97, 0x6c, 0xae, 0x7c))
  const B5 := State(Col(0xa1, 0x63, 0xa8, 0xfc), Col(0x78, 0x4f, 0x29, 0xdf),
                    Col(0x10, 0xe8, 0x3d, 0x23), Col(0x4c, 0xd5, 0x03, 0xfe))
  const B6 := State(Col(0xf7, 0xab, 0x31, 0xf0), Col(0x27, 0x83, 0xa9, 0xff),
                    Col(0x9b, 0x43, 0x40, 0xd3), Col(0x54, 0xb5, 0x3d, 0x3f))
  const B7 := State(Col(0xbe, 0x83, 0x2c, 0xc8), Col(0xd4, 0x3b, 0x86, 0xc0),
                    Col(0x0a, 0xe1, 0xd4, 0x4d), Col(0xda, 0x64, 0xf2, 0xfe))
  const B8 := State(Col(0x87, 0xec, 0x4a, 0x8c), Col(0xf2, 0x6e, 0xc3, 0xd8),
                    Col(0x4d, 0x4c, 0x46, 0x95), Col(0x97, 0x90, 0xe7, 0xa6))
  const B9 := State(Col(0xe9, 0x09, 0x89, 0x72), Col(0xcb, 0x31, 0x07, 0x5f),
                    Col(0x3d, 0x32, 0x7d, 0x94), Col(0xaf, 0x2e, 0x2c, 0xb5))
  const C0 := State(Col(0x04, 0x66, 0x81, 0xe5), Col(0xe0, 0xcb, 0x19, 0x9a),
                    Col(0x48, 0xf8, 0xd3, 0x7a), Col(0x28, 0x06, 0x26, 0x4c))
  const C1 := State(Col(0x58, 0x4d, 0xca, 0xf1), Col(0x1b, 0x4b, 0x5a, 0xac),
                    Col(0xdb, 0xe7, 0xca, 0xa8), Col(0x1b, 0x6b, 0xb0, 0xe5))
  const C2 := State(Col(0x75, 0xec, 0x09, 0x93), Col(0x20, 0x0b, 0x63, 0x33),
                    Col(0x53, 0xc0, 0xcf, 0x7c), Col(0xbb, 0x25, 0xd0, 0xdc))
  const C3 := State(Col(0x0f, 0xd6, 0xda, 0xa9), Col(0x60, 0x31, 0x38, 0xbf),
                    Col(0x6f, 0xc0, 0x10, 0x6b), Col(0x5e, 0xb3, 0x13, 0x01))
  const C4 := State(Col(0x25, 0xd1, 0xa9, 0xad), Col(0xbd, 0x11, 0xd1, 0x68),
                    Col(0xb6, 0x3a, 0x33, 0x8e), Col(0x4c, 0x4c, 0xc0, 0xb0))
  const C5 := State(Col(0x4b, 0x86, 0x8d, 0x6d), Col(0x2c, 0x4a, 0x89, 0x80),
                    Col(0x33, 0x9d, 0xf4, 0xe8), Col(0x37, 0xd2, 0x18, 0xd8))
  const C6 := State(Col(0x14, 0x15, 0xb5, 0xbf), Col(0x46, 0x16, 0x15, 0xec),
                    Col(0x27, 0x46, 0x56, 0xd7), Col(0x34, 0x2a, 0xd8, 0x43))
  const C7 := State(Col(0x00, 0x51, 0x2f, 0xd1), Col(0xb1, 0xc8, 0x89, 0xff),
                    Col(0x54, 0x76, 0x6d, 0xcd), Col(0xfa, 0x1b, 0x99, 0xea))
  const C8 := State(Col(0x47, 0x37, 0x94, 0xed), Col(0x40, 0xd4, 0xe4, 0xa5),
                    Col(0xa3, 0x70, 0x3a, 0xa6), Col(0x4c, 0x9f, 0x42, 0xbc))
  const K0 := State(Col(0x2b, 0x7e, 0x15, 0x16), Col(0x28, 0xae, 0xd2, 0xa6),
                    Col(0xab, 0xf7, 0x15, 0x88), Col(0x09, 0xcf, 0x4f, 0x3c))
  const K1 := State(Col(0xa0, 0xfa, 0xfe, 0x17), Col(0x88, 0x54, 0x2c, 0xb1),
                    Col(0x23, 0xa3, 0x39, 0x39), Col(0x2a, 0x6c, 0x76, 0x05))
  const K2 := State(Col(0xf2, 0xc2, 0x95, 0xf2), Col(0x7a, 0x96, 0xb9, 0x43),
                    Col(0x59, 0x35, 0x80, 0x7a), Col(0x73, 0x59, 0xf6, 0x7f))
  const K3 := State(Col(0x3d, 0x80, 0x47, 0x7d), Col(0x47, 0x16, 0xfe, 0x3e),
                    Col(0x1e, 0x23, 0x7e, 0x44), Col(0x6d, 0x7a, 0x88, 0x3b))
  const K4 := State(Col(0xef, 0x44, 0xa5, 0x41), Col(0xa8, 0x52, 0x5b, 0x7f),
                    Col(0xb6, 0x71, 0x25, 0x3b), Col(0xdb, 0x0b, 0xad, 0x00))
  const K5 := State(Col(0xd4, 0xd1, 0xc6, 0xf8), Col(0x7c, 0x83, 0x9d, 0x87),
                    Col(0xca, 0xf2, 0xb8, 0xbc), Col(0x11, 0xf9, 0x15, 0xbc))
  const K6 := State(Col(0x6d, 0x88, 0xa3, 0x7a), Col(0x11, 0x0b, 0x3e, 0xfd),
                    Col(0xdb, 0xf9, 0x86, 0x41), Col(0xca, 0x00, 0x93, 0xfd))
  const K7 := State(Col(0x4e, 0x54, 0xf7, 0x0e), Col(0x5f, 0x5f, 0xc9, 0xf3),
                    Col(0x84, 0xa6, 0x4f, 0xb2), Col(0x4e, 0xa6, 0xdc, 0x4f))
  const K8 := State(Col(0xea, 0xd2, 0x73, 0x21), Col(0xb5, 0x8d, 0xba, 0xd2),
                    Col(0x31, 0x2b, 0xf5, 0x60), Col(0x7f, 0x8d, 0x29, 0x2f))
  const K9 := State(Col(0xac, 0x77, 0x66, 0xf3), Col(0x19, 0xfa, 0xdc, 0x21),
                    Col(0x28, 0xd1, 0x29, 0x41), Col(0x57, 0x5c, 0x00, 0x6e))
  const K10 := State(Col(0xd0, 0x14, 0xf9, 0xa8), Col(0xc9, 0xee, 0x25, 0x89),
                     Col(0xe1, 0x3f, 0x0c, 0xc8), Col(0xb6, 0x63, 0x0c, 0xa6))
  const INPUT := State(Col(0x32, 0x43, 0xf6, 0xa8), Col(0x88, 0x5a, 0x30, 0x8d),
                       Col(0x31, 0x31, 0x98, 0xa2), Col(0xe0, 0x37, 0x07, 0x34))
  const OUTPUT := State(Col(0x39, 0x25, 0x84, 0x1d), Col(0x02, 0xdc, 0x09, 0xfb),
                        Col(0xdc, 0x11, 0x85, 0x97), Col(0x19, 0x6a, 0x0b, 0x32))

  const KEYS := [K0, K1, K2, K3, K4, K5, K6, K7, K8, K9, K10]

  lemma Sub0()
    ensures SubBytes(A0) == B0
  {
    SBox();
    hide S;
  }

  lemma Sub1()
    ensures SubBytes(A1) == B1
  {
    SBox();
    hide S;
  }

  lemma Sub2()
    ensures SubBytes(A2) == B2
  {
    SBox();
    hide S;
  }

  lemma Sub3()
    ensures SubBytes(A3) == B3
  {
    SBox();
    hide S;
  }

  lemma Sub4()
    ensures SubBytes(A4) == B4
  {
    SBox();
    hide S;
  }

  lemma Sub5()
    ensures SubBytes(A5) == B5
  {
    SBox();
    hide S;
  }

  lemma Sub6()
    ensures SubBytes(A6) == B6
  {
    SBox();
    hide S;
  }

  lemma Sub7()
    ensures SubBytes(A7) == B7
  {
    SBox();
    hide S;
  }

  lemma Sub8()
    ensures SubBytes(A8) == B8
  {
    SBox();
    hide S;
  }

  lemma Sub9()
    ensures SubBytes(A9) == B9
  {
    SBox();
    hide S;
  }

  lemma Mix0() ensures MixColumns(ShiftRows(B0)) == C0 {}
  lemma Mix1() ensures MixColumns(ShiftRows(B1)) == C1 {}
  lemma Mix2() ensures MixColumns(ShiftRows(B2)) == C2 {}
  lemma Mix3() ensures MixColumns(ShiftRows(B3)) == C3 {}
  lemma Mix4() ensures MixColumns(ShiftRows(B4)) == C4 {}
  lemma Mix5() ensures MixColumns(ShiftRows(B5)) == C5 {}
  lemma Mix6() ensures MixColumns(ShiftRows(B6)) == C6 {}
  lemma Mix7() ensures MixColumns(ShiftRows(B7)) == C7 {}
  lemma Mix8() ensures MixColumns(ShiftRows(B8)) == C8 {}

  lemma Round1()
    ensures Round(A0, K1) == A1
  {
    Sub0();
    Mix0();
    hide SubBytes, MixColumns, ShiftRows;
  }

  lemma Round2()
    ensures Round(A1, K2) == A2
  {
    Sub1();
    Mix1();
    hide SubBytes, MixColumns, ShiftRows;
  }

  lemma Round3()
    ensures Round(A2, K3) == A3
  {
    Sub2();
    Mix2();
    hide SubBytes, MixColumns, ShiftRows;
  }

  lemma Round4()
    ensures Round(A3, K4) == A4
  {
    Sub3();
    Mix3();
    hide SubBytes, MixColumns, ShiftRows;
  }

  lemma Round5()
    ensures Round(A4, K5) == A5
  {
    Sub4();
    Mix4();
    hide SubBytes, MixColumns, ShiftRows;
  }

  lemma Round6()
    ensures Round(A5, K6) == A6
  {
    Sub5();
    Mix5();
    hide SubBytes, MixColumns, ShiftRows;
  }

  lemma Round7()
    ensures Round(A6, K7) == A7
  {
    Sub6();
    Mix6();
    hide SubBytes, MixColumns, ShiftRows;
  }

  lemma Round8()
    ensures Round(A7, K8) == A8
  {
    Sub7();
    Mix7();
    hide SubBytes, MixColumns, ShiftRows;
  }

  lemma Round9()
    ensures Round(A8, K9) == A9
  {
    Sub8();
    Mix8();
    hide SubBytes, MixColumns, ShiftRows;
  }

  lemma Last()
    ensures LastRound(A9, K10) == OUTPUT
  {
    Sub9();
    hide SubBytes;
  }

  lemma First() ensures AddRoundKey(INPUT, K0) == A0 {}

  /** The cipher takes the example's input to its output. */
  lemma CipherExample()
    ensures Cipher(INPUT, KEYS) == OUTPUT
  {
    First();
    Round1();
    Round2();
    Round3();
    Round4();
    Round5();
    Round6();
    Round7();
    Round8();
    Round9();
    Last();
    hide Round, LastRound, AddRoundKey;
    assert Rounds(INPUT, KEYS, 0) == A0;
    assert Rounds(INPUT, KEYS, 1) == A1;
    assert Rounds(INPUT, KEYS, 2) == A2;
    assert Rounds(INPUT, KEYS, 3) == A3;
    assert Rounds(INPUT, KEYS, 4) == A4;
    assert Rounds(INPUT, KEYS, 5) == A5;
    assert Rounds(INPUT, KEYS, 6) == A6;
    assert Rounds(INPUT, KEYS, 7) == A7;
    assert Rounds(INPUT, KEYS, 8) == A8;
    assert Rounds(INPUT, KEYS, 9) == A9;
  }

  // ---------------------------------------------------------------- appendix A

  const KEY128: seq<word> := [0x2b7e1516, 0x28aed2a6, 0xabf71588, 0x09cf4f3c]
  const KEY192: seq<word> := [0x8e73b0f7, 0xda0e6452, 0xc810f32b, 0x809079e5, 0x62f8ead2, 0x522c6b7b]
  const KEY256: seq<word> := [0x603deb10, 0x15ca71be, 0x2b73aef0, 0x857d7781, 0x1f352c07, 0x3b6108d7,
                            0x2d9810a3, 0x0914dff4]

  lemma ExpandStep(key: seq<word>, i: nat)
    requires 0 < |key| <= i
    ensures Expand(key, i) == Plus(Expand(key, i - |key|), Mangle(Expand(key, i - 1), |key|, i))
  {
    hide Mangle, Plus;
  }

  lemma Key128()
    ensures Expand(KEY128, 0) == 0x2b7e1516 && Expand(KEY128, 1) == 0x28aed2a6 && Expand(KEY128, 2) == 0xabf71588
    ensures Expand(KEY128, 3) == 0x09cf4f3c
  {
  }

  lemma Words128Sub()
    ensures SubCol(Col(0xcf, 0x4f, 0x3c, 0x09)) == Col(0x8a, 0x84, 0xeb, 0x01)
  {
    SBox();
    hide S;
  }

  lemma Words128Turns()
    ensures Mangle(0x09cf4f3c, 4, 4) == 0x8b84eb01
  {
    Words128Sub();
    RconTable(0);
    hide SubCol, Rcon;
    assert RotWord(0x09cf4f3c) == 0xcf4f3c09;
    assert Abs(0xcf4f3c09) == Col(0xcf, 0x4f, 0x3c, 0x09);
    assert Word(Col(0x8a, 0x84, 0xeb, 0x01)) == 0x8a84eb01;
  }

  lemma Words128()
    ensures Expand(KEY128, 4) == 0xa0fafe17 && Expand(KEY128, 5) == 0x88542cb1 && Expand(KEY128, 6) == 0x23a33939
    ensures Expand(KEY128, 7) == 0x2a6c7605
  {
    Key128();
    Words128Turns();
    ExpandStep(KEY128, 4);
    ExpandPlain(KEY128, 5);
    ExpandPlain(KEY128, 6);
    ExpandPlain(KEY128, 7);
    hide Expand, Mangle;
  }

  lemma Key192()
    ensures Expand(KEY192, 0) == 0x8e73b0f7 && Expand(KEY192, 1) == 0xda0e6452 && Expand(KEY192, 2) == 0xc810f32b
    ensures Expand(KEY192, 3) == 0x809079e5 && Expand(KEY192, 4) == 0x62f8ead2 && Expand(KEY192, 5) == 0x522c6b7b
  {
  }

  lemma Words192Sub()
    ensures SubCol(Col(0x2c, 0x6b, 0x7b, 0x52)) == Col(0x71, 0x7f, 0x21, 0x00)
  {
    SBox();
    hide S;
  }

  lemma Words192Turns()
    ensures Mangle(0x522c6b7b, 6, 6) == 0x707f2100
  {
    Words192Sub();
    RconTable(0);
    hide SubCol, Rcon;
    assert RotWord(0x522c6b7b) == 0x2c6b7b52;
    assert Abs(0x2c6b7b52) == Col(0x2c, 0x6b, 0x7b, 0x52);
    assert Word(Col(0x71, 0x7f, 0x21, 0x00)) == 0x717f2100;
  }

  lemma Words192()
    ensures Expand(KEY192, 6) == 0xfe0c91f7 && Expand(KEY192, 7) == 0x2402f5a5 && Expand(KEY192, 8) == 0xec12068e
    ensures Expand(KEY192, 9) == 0x6c827f6b && Expand(KEY192, 10) == 0x0e7a95b9 && Expand(KEY192, 11) == 0x5c56fec2
  {
    Key192();
    Words192Turns();
    ExpandStep(KEY192, 6);
    ExpandPlain(KEY192, 7);
    ExpandPlain(KEY192, 8);
    ExpandPlain(KEY192, 9);
    ExpandPlain(KEY192, 10);
    ExpandPlain(KEY192, 11);
    hide Expand, Mangle;
  }

  lemma Key256()
    ensures Expand(KEY256, 0) == 0x603deb10 && Expand(KEY256, 1) == 0x15ca71be && Expand(KEY256, 2) == 0x2b73aef0
    ensures Expand(KEY256, 3) == 0x857d7781 && Expand(KEY256, 4) == 0x1f352c07 && Expand(KEY256, 5) == 0x3b6108d7
    ensures Expand(KEY256, 6) == 0x2d9810a3 && Expand(KEY256, 7) == 0x0914dff4
  {
  }

  lemma Words256Sub()
    ensures SubCol(Col(0x14, 0xdf, 0xf4, 0x09)) == Col(0xfa, 0x9e, 0xbf, 0x01)
  {
    SBox();
    hide S;
  }

  lemma Words256Turns()
    ensures Mangle(0x0914dff4, 8, 8) == 0xfb9ebf01
  {
    Words256Sub();
    RconTable(0);
    hide SubCol, Rcon;
    assert RotWord(0x0914dff4) == 0x14dff409;
    assert Abs(0x14dff409) == Col(0x14, 0xdf, 0xf4, 0x09);
    assert Word(Col(0xfa, 0x9e, 0xbf, 0x01)) == 0xfa9ebf01;
  }

  lemma Words256()
    ensures Expand(KEY256, 8) == 0x9ba35411 && Expand(KEY256, 9) == 0x8e6925af && Expand(KEY256, 10) == 0xa51a8b5f
    ensures Expand(KEY256, 11) == 0x2067fcde
  {
    Key256();
    Words256Turns();
    ExpandStep(KEY256, 8);
    ExpandPlain(KEY256, 9);
    ExpandPlain(KEY256, 10);
    ExpandPlain(KEY256, 11);
    hide Expand, Mangle;
  }

  lemma Middle256Sub()
    ensures SubCol(Col(0x20, 0x67, 0xfc, 0xde)) == Col(0xb7, 0x85, 0xb0, 0x1d)
  {
    SBox();
    hide S;
  }

  lemma Middle256Turns()
    ensures Mangle(0x2067fcde, 8, 12) == 0xb785b01d
  {
    Middle256Sub();
    hide SubCol;
    assert Abs(0x2067fcde) == Col(0x20, 0x67, 0xfc, 0xde);
    assert Word(Col(0xb7, 0x85, 0xb0, 0x1d)) == 0xb785b01d;
  }

  lemma Middle256()
    ensures Expand(KEY256, 12) == 0xa8b09c1a && Expand(KEY256, 13) == 0x93d194cd && Expand(KEY256, 14) == 0xbe49846e
    ensures Expand(KEY256, 15) == 0xb75d5b9a
  {
    Words256();
    Middle256Turns();
    ExpandStep(KEY256, 12);
    ExpandPlain(KEY256, 13);
    ExpandPlain(KEY256, 14);
    ExpandPlain(KEY256, 15);
    hide Expand, Mangle;
  }
}
