/** The displacement fields of Alpha instructions, as two's-complement words. */
module AlphaFields {
  type Word = bv32

  /** Shift right by two places with the sign. */
  function Asr2(w: Word): (r: Word) {
    ((w >> 2) ^ 0x20000000) - 0x20000000
  }

  /** Signed division by 4, rounding towards zero: 3 is added to negative numbers. */
  function Quarter(v: Word): (r: Word) {
    Asr2(v + ((v >> 31) | ((v >> 31) << 1)))
  }

  /** The shift copies the sign into the top bits. */
  lemma Asr2Positive(w: Word) ensures w & 0x80000000 == 0 ==> Asr2(w) == w >> 2 {}
  lemma Asr2Negative(w: Word) ensures w & 0x80000000 != 0 ==> Asr2(w) == (w >> 2) | 0xC0000000 {}

  lemma NothingAdded(v: Word) ensures v & 0x80000000 == 0 ==> (v >> 31) | ((v >> 31) << 1) == 0 {}
  lemma ThreeAdded(v: Word) ensures v & 0x80000000 != 0 ==> (v >> 31) | ((v >> 31) << 1) == 3 {}

  lemma QuarterPositive(v: Word)
    ensures v & 0x80000000 == 0 ==> Quarter(v) == Asr2(v)
  {
    NothingAdded(v);
    hide Asr2;
  }

  /** Three is added to negative numbers only. */
  lemma QuarterNegative(v: Word)
    ensures v & 0x80000000 != 0 ==> Quarter(v) == Asr2(v + 3)
  {
    ThreeAdded(v);
    hide Asr2;
  }

  /** insert_bdisp, insert_jhint and insert_ev6hwjhint, by the mask of their field. */
  function Insert(insn: Word, v: Word, mask: Word): (r: Word) {
    insn | (Quarter(v) & mask)
  }

  /** A field with its sign bit as a displacement. */
  function Widen(f: Word, sign: Word): (r: Word) {
    ((f ^ sign) - sign) << 2
  }

  /** extract_bdisp, extract_jhint and extract_ev6hwjhint; sign is the sign bit of the field. */
  function Extract(insn: Word, mask: Word, sign: Word): (r: Word) {
    Widen(insn & mask, sign)
  }

  /** v is a multiple of 4 from -reach up to, but not including, reach. */
  predicate Fits(v: Word, reach: Word) {
    v & 3 == 0 && v + reach < reach << 1
  }

  /** Branch displacements: inserting into a clear field and extracting gives the displacement back exactly when
      it is aligned and in reach. */
  lemma BranchRoundTrip(insn: Word, v: Word)
    requires insn & 0x1FFFFF == 0
    ensures Extract(Insert(insn, v, 0x1FFFFF), 0x1FFFFF, 0x100000) == v <==> Fits(v, 0x400000)
  {
    if Fits(v, 0x400000) {
      BranchKept(insn, v);
    }
    if Extract(Insert(insn, v, 0x1FFFFF), 0x1FFFFF, 0x100000) == v {
      BranchFits(insn, v);
    }
    hide Fits, Extract, Insert;
  }

  lemma BranchKept(insn: Word, v: Word)
    requires insn & 0x1FFFFF == 0 && Fits(v, 0x400000)
    ensures Extract(Insert(insn, v, 0x1FFFFF), 0x1FFFFF, 0x100000) == v
  {
  }

  lemma BranchFits(insn: Word, v: Word)
    requires insn & 0x1FFFFF == 0 && Extract(Insert(insn, v, 0x1FFFFF), 0x1FFFFF, 0x100000) == v
    ensures Fits(v, 0x400000)
  {
  }

  lemma BranchRestores(insn: Word)
    ensures Insert(insn & 0xFFE00000, Extract(insn, 0x1FFFFF, 0x100000), 0x1FFFFF) == insn
  {
  }

  /** Jump hints: inserting into a clear field and extracting gives the displacement back exactly when
      it is aligned and in reach. */
  lemma HintRoundTrip(insn: Word, v: Word)
    requires insn & 0x3FFF == 0
    ensures Extract(Insert(insn, v, 0x3FFF), 0x3FFF, 0x2000) == v <==> Fits(v, 0x8000)
  {
    if Fits(v, 0x8000) {
      HintKept(insn, v);
    }
    if Extract(Insert(insn, v, 0x3FFF), 0x3FFF, 0x2000) == v {
      HintFits(insn, v);
    }
    hide Fits, Extract, Insert;
  }

  lemma HintKept(insn: Word, v: Word)
    requires insn & 0x3FFF == 0 && Fits(v, 0x8000)
    ensures Extract(Insert(insn, v, 0x3FFF), 0x3FFF, 0x2000) == v
  {
  }

  lemma HintFits(insn: Word, v: Word)
    requires insn & 0x3FFF == 0 && Extract(Insert(insn, v, 0x3FFF), 0x3FFF, 0x2000) == v
    ensures Fits(v, 0x8000)
  {
  }

  lemma HintRestores(insn: Word)
    ensures Insert(insn & 0xFFFFC000, Extract(insn, 0x3FFF, 0x2000), 0x3FFF) == insn
  {
  }

  /** Jump hints of the EV6: inserting into a clear field and extracting gives the displacement back exactly when
      it is aligned and in reach. */
  lemma HwHintRoundTrip(insn: Word, v: Word)
    requires insn & 0x1FFF == 0
    ensures Extract(Insert(insn, v, 0x1FFF), 0x1FFF, 0x1000) == v <==> Fits(v, 0x4000)
  {
    if Fits(v, 0x4000) {
      HwHintKept(insn, v);
    }
    if Extract(Insert(insn, v, 0x1FFF), 0x1FFF, 0x1000) == v {
      HwHintFits(insn, v);
    }
    hide Fits, Extract, Insert;
  }

  lemma HwHintKept(insn: Word, v: Word)
    requires insn & 0x1FFF == 0 && Fits(v, 0x4000)
    ensures Extract(Insert(insn, v, 0x1FFF), 0x1FFF, 0x1000) == v
  {
  }

  lemma HwHintFits(insn: Word, v: Word)
    requires insn & 0x1FFF == 0 && Extract(Insert(insn, v, 0x1FFF), 0x1FFF, 0x1000) == v
    ensures Fits(v, 0x4000)
  {
  }

  lemma HwHintRestores(insn: Word)
    ensures Insert(insn & 0xFFFFE000, Extract(insn, 0x1FFF, 0x1000), 0x1FFF) == insn
  {
  }
}
