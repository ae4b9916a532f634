/** The Alpha disassembler's opcode search through an index by major opcode. */
module AlphaSearch {
  import opened Wire

  const NOPS := 64
  const OP_MASK: bv32 := 0xFC000000

  type Word = bv32

  /** rejects holds, for each operand with an extraction function, the instructions it finds invalid. */
  datatype Opcode = Opcode(opcode: Word, mask: Word, flags: Word, rejects: seq<Word -> bool>)

  /** The major opcode of an instruction. */
  function Major(w: Word): (m: nat)
    ensures m < NOPS
  {
    var m := (w >> 26) & 0x3F;
    assert m < 64;
    m as nat
  }

  /** It is the top six bits. */
  lemma MajorIsTop(w: Word, v: Word)
    ensures Major(w) == Major(v) <==> w & 0xFC000000 == v & 0xFC000000
    ensures Major(0x04000000) == 1 && Major(0x08000000) == 2 && Major(0x10000000) == 4 && Major(0x20000000) == 8
    ensures Major(0x40000000) == 16 && Major(0x80000000) == 32 && Major(0xFC000000) == 63
  {
    MajorOf(w);
    MajorOf(v);
  }

  lemma MajorOf(w: Word)
    ensures (w >> 26) & 0x3F < 64 && Major(w) == ((w >> 26) & 0x3F) as nat
  {
  }

  predicate Valid(rejects: seq<Word -> bool>, insn: Word) {
    forall i :: 0 <= i < |rejects| ==> !rejects[i](insn)
  }

  predicate Agrees(a: Word, b: Word, mask: Word) {
    (a ^ b) & mask == 0
  }

  predicate Available(flags: Word, isa: Word) {
    flags & isa != 0
  }

  /** A bit of the flags makes an entry available exactly where the set has it. */
  lemma AvailableByBit(isa: Word)
    ensures Available(1, isa) <==> isa & 1 == 1
    ensures Available(2, isa) <==> isa & 2 == 2
    ensures !Available(0, isa) && (isa != 0 ==> Available(0xFFFFFFFF, isa))
  {
  }

  predicate Matches(o: Opcode, insn: Word, isa: Word) {
    Agrees(insn, o.opcode, o.mask) && Available(o.flags, isa) && Valid(o.rejects, insn)
  }

  /** The mask of an entry covers the major opcode, so only instructions with its major opcode match. */
  predicate Covers(o: Opcode) {
    o.mask & OP_MASK == OP_MASK
  }

  lemma MajorBits(a: Word, b: Word, mask: Word)
    requires mask & OP_MASK == OP_MASK && (a ^ b) & mask == 0
    ensures (a >> 26) & 0x3F == (b >> 26) & 0x3F
  {
  }

  lemma MatchHasMajor(o: Opcode, insn: Word, isa: Word)
    requires Covers(o) && Matches(o, insn, isa)
    ensures Major(o.opcode) == Major(insn)
  {
    MajorBits(insn, o.opcode, o.mask);
  }

  // ------------------------------------------------------------ plain scan

  /** The first matching entry of table[lo..hi]. */
  function FirstMatch(table: seq<Opcode>, lo: nat, hi: nat, insn: Word, isa: Word): (r: Option<nat>)
    requires lo <= hi <= |table|
    ensures r.Some? ==> lo <= r.value < hi && Matches(table[r.value], insn, isa)
    decreases hi - lo
  {
    if lo == hi then None
    else if Matches(table[lo], insn, isa) then Some(lo)
    else FirstMatch(table, lo + 1, hi, insn, isa)
  }

  /** Entries that cannot match may be left out at both ends. */
  lemma {:induction false} FirstMatchNarrows(table: seq<Opcode>, lo: nat, a: nat, b: nat, hi: nat,
                                             insn: Word, isa: Word)
    requires lo <= a <= b <= hi <= |table|
    requires forall i :: lo <= i < a || b <= i < hi ==> !Matches(table[i], insn, isa)
    ensures FirstMatch(table, lo, hi, insn, isa) == FirstMatch(table, a, b, insn, isa)
    decreases hi - lo
  {
    hide Matches;
    if lo < a {
      FirstMatchNarrows(table, lo + 1, a, b, hi, insn, isa);
    } else if lo < b {
      if !Matches(table[lo], insn, isa) {
        FirstMatchNarrows(table, lo + 1, a + 1, b, hi, insn, isa);
      }
    } else if lo < hi {
      FirstMatchNarrows(table, lo + 1, a + 1, b + 1, hi, insn, isa);
    }
  }

  // ----------------------------------------------------------------- index

  ghost predicate SortedByMajor(table: seq<Opcode>) {
    forall i, j :: 0 <= i <= j < |table| ==> Major(table[i].opcode) <= Major(table[j].opcode)
  }

  /** index[op]..index[op + 1] is a slice of a table of n entries. */
  predicate Slice(index: seq<nat>, op: nat, n: nat)
    requires op + 1 < |index|
  {
    index[op] <= index[op + 1] <= n
  }

  predicate InSlice(index: seq<nat>, op: nat, i: nat)
    requires op + 1 < |index|
  {
    index[op] <= i < index[op + 1]
  }

  /** index[op]..index[op + 1] are the entries of major opcode op. */
  ghost predicate Indexes(index: seq<nat>, table: seq<Opcode>) {
    && |index| == NOPS + 1
    && (forall op :: 0 <= op < NOPS ==> Slice(index, op, |table|))
    && (forall op, i :: 0 <= op < NOPS && 0 <= i < |table| ==>
          (InSlice(index, op, i) <==> Major(table[i].opcode) == op))
  }

  /** The entries below k have majors below op, those from k on at least op. */
  ghost predicate SplitAt(table: seq<Opcode>, k: nat, op: nat) {
    && k <= |table|
    && (forall i :: 0 <= i < k ==> Major(table[i].opcode) < op)
    && (forall i :: k <= i < |table| ==> Major(table[i].opcode) >= op)
  }

  lemma SplitsIndex(index: seq<nat>, table: seq<Opcode>)
    requires |index| == NOPS + 1 && forall op :: 0 <= op <= NOPS ==> SplitAt(table, index[op], op)
    ensures Indexes(index, table)
  {
    hide Major;
    forall op | 0 <= op < NOPS ensures Slice(index, op, |table|) {
      var a, b := index[op], index[op + 1];
      assert SplitAt(table, a, op) && SplitAt(table, b, op + 1);
      assert a == 0 || Major(table[a - 1].opcode) < op;
    }
    forall op, i | 0 <= op < NOPS && 0 <= i < |table|
      ensures InSlice(index, op, i) <==> Major(table[i].opcode) == op
    {
      assert SplitAt(table, index[op], op) && SplitAt(table, index[op + 1], op + 1);
    }
  }

  /** The indexed search finds what a scan of the whole table finds. */
  lemma IndexedSearchExact(index: seq<nat>, table: seq<Opcode>, insn: Word, isa: Word)
    requires Indexes(index, table) && forall i :: 0 <= i < |table| ==> Covers(table[i])
    ensures var op := Major(insn);
            Slice(index, op, |table|) &&
            FirstMatch(table, index[op], index[op + 1], insn, isa) == FirstMatch(table, 0, |table|, insn, isa)
  {
    var op := Major(insn);
    assert Slice(index, op, |table|);
    forall i | 0 <= i < index[op] || index[op + 1] <= i < |table| ensures !Matches(table[i], insn, isa) {
      assert !InSlice(index, op, i);
      if Matches(table[i], insn, isa) {
        MatchHasMajor(table[i], insn, isa);
      }
    }
    hide Major, Matches;
    FirstMatchNarrows(table, 0, index[op], index[op + 1], |table|, insn, isa);
  }

  // -------------------------------------------------------------- the code

  /** The construction of the index, for a table sorted by major opcode. */
  method BuildIndex(table: seq<Opcode>) returns (index: array<nat>)
    requires SortedByMajor(table)
    ensures fresh(index) && Indexes(index[..], table)
  {
    hide Major;
    index := new nat[NOPS + 1];
    var opcode, op := 0, 0;
    assert SplitAt(table, 0, 0);
    while op < NOPS
      invariant 0 <= op <= NOPS && SplitAt(table, opcode, op)
      invariant forall k :: 0 <= k < op ==> SplitAt(table, index[k], k)
    {
      index[op] := opcode;
      ghost var start := opcode;
      while opcode < |table| && op == Major(table[opcode].opcode)
        invariant start <= opcode <= |table|
        invariant forall i :: start <= i < opcode ==> Major(table[i].opcode) == op
      {
        opcode := opcode + 1;
      }
      op := op + 1;
    }
    assert opcode < |table| ==> Major(table[opcode].opcode) < NOPS;
    index[op] := opcode;
    SplitsIndex(index[..], table);
  }

  /** The operands' extraction functions, in order, each of which may raise the invalid flag. */
  method CheckOperands(rejects: seq<Word -> bool>, insn: Word) returns (invalid: bool)
    ensures invalid <==> !Valid(rejects, insn)
  {
    invalid := false;
    for i := 0 to |rejects|
      invariant invalid <==> exists k :: 0 <= k < i && rejects[k](insn)
    {
      if rejects[i](insn) {
        invalid := true;
      }
    }
  }

  /** The search of the index slice finds the first match of the whole table. */
  method Search(table: seq<Opcode>, index: array<nat>, insn: Word, isa: Word) returns (r: Option<nat>)
    requires Indexes(index[..], table) && forall i :: 0 <= i < |table| ==> Covers(table[i])
    ensures r == FirstMatch(table, 0, |table|, insn, isa)
  {
    var op := Major(insn);
    IndexedSearchExact(index[..], table, insn, isa);
    hide Indexes, Major;
    var opcode, end := index[op], index[op + 1];
    hide Matches, Covers;
    while opcode < end
      invariant opcode <= end <= |table|
      invariant FirstMatch(table, opcode, end, insn, isa) == FirstMatch(table, 0, |table|, insn, isa)
    {
      var found := CheckEntry(table[opcode], insn, isa);
      if found {
        return Some(opcode);
      }
      opcode := opcode + 1;
    }
    return None;
  }

  method CheckEntry(o: Opcode, insn: Word, isa: Word) returns (found: bool)
    ensures found <==> Matches(o, insn, isa)
  {
    hide Agrees, Available, Valid;
    if !Agrees(insn, o.opcode, o.mask) {
      return false;
    }
    if !Available(o.flags, isa) {
      return false;
    }
    var invalid := CheckOperands(o.rejects, insn);
    return !invalid;
  }
}
