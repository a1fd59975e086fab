/** What a CRC-32 register holds after data and its stored CRC, by linearity of the shifts. */
module CrcResidue {
  import opened LinearIteration
  import opened Crc32

  const MAGIC: bv32 := 0xdebb_20e3  // the residue APPNOTE 4.4.7 names

  predicate Low(a: bv32) {
    a & 1 == 1
  }

  function Down(a: bv32): bv32 {
    a >> 1
  }

  lemma XorAssociates(a: bv32, b: bv32, c: bv32)
    ensures Xor(Xor(a, b), c) == Xor(a, Xor(b, c))
  {
  }

  lemma XorCommutes(a: bv32, b: bv32)
    ensures Xor(a, b) == Xor(b, a)
  {
  }

  lemma XorAbelian()
    ensures Abelian(Xor)
  {
    forall a, b, c ensures Xor(Xor(a, b), c) == Xor(a, Xor(b, c)) { XorAssociates(a, b, c); }
    forall a, b ensures Xor(a, b) == Xor(b, a) { XorCommutes(a, b); }
  }

  lemma DownLinear()
    ensures Linear(Down, Xor)
  {
    forall a, b ensures Down(Xor(a, b)) == Xor(Down(a), Down(b)) { DownAdds(a, b); }
  }

  lemma DownAdds(a: bv32, b: bv32)
    ensures Down(Xor(a, b)) == Xor(Down(a), Down(b))
  {
  }

  lemma LowDetects()
    ensures Detects(Low, Xor)
  {
    forall a, b ensures Low(Xor(a, b)) <==> Low(a) != Low(b) { LowAdds(a, b); }
  }

  lemma LowAdds(a: bv32, b: bv32)
    ensures Low(Xor(a, b)) <==> Low(a) != Low(b)
  {
  }

  lemma PolynomialCancels()
    ensures Cancels(Xor, POLYNOMIAL)
  {
  }

  lemma ShiftIsStep()
    ensures StepsBy(Shift, Xor, Low, Down, POLYNOMIAL)
  {
  }

  /** One shift is linear over exclusive or. */
  lemma ShiftLinear()
    ensures Linear(Shift, Xor)
  {
    XorAbelian();
    DownLinear();
    LowDetects();
    PolynomialCancels();
    ShiftIsStep();
    StepLinear(Shift, Xor, Low, Down, POLYNOMIAL);
  }

  function EightShifts(c: bv32): bv32 {
    Iterate(Shift, c, 8)
  }

  lemma EightLinear()
    ensures Linear(EightShifts, Xor)
  {
    ShiftLinear();
    IterationLinear(Shift, EightShifts, Xor, 8);
  }

  /** Eight shifts move a word whose low byte is clear down by one byte. */
  lemma CleanByteShiftsDown(c: bv32)
    requires c & 0xff == 0
    ensures EightShifts(c) == c >> 8
  {
    IterateEight(Shift, c);
    CleanByteUnrolled(c);
  }

  lemma CleanByteUnrolled(c: bv32)
    requires c & 0xff == 0
    ensures Shift(Shift(Shift(Shift(Shift(Shift(Shift(Shift(c)))))))) == c >> 8
  {
  }

  function Part0(w: bv32): bv32 { w & 0xff }
  function Part1(w: bv32): bv32 { w & 0xff00 }
  function Part2(w: bv32): bv32 { w & 0xff_0000 }
  function Part3(w: bv32): bv32 { w & 0xff00_0000 }

  lemma PartsMakeWord(w: bv32)
    ensures Xor(Xor(Xor(Part0(w), Part1(w)), Part2(w)), Part3(w)) == w
  {
  }

  lemma Byte0(w: bv32)
    ensures Part0(w) == Value(LeWord(w)[0])
  {
    LowByteValue(w);
  }

  lemma Byte1(w: bv32)
    ensures EightShifts(Part1(w)) == Value(LeWord(w)[1])
  {
    var part := w & 0xff00;
    LowByteValue(w >> 8);
    Moves1(w);
    CleanByteShiftsDown(part);
  }

  lemma Moves1(w: bv32)
    ensures var part := w & 0xff00; part & 0xff == 0 && part >> 8 == (w >> 8) & 0xff
  {
  }

  lemma Byte2(w: bv32)
    ensures EightShifts(EightShifts(Part2(w))) == Value(LeWord(w)[2])
  {
    var part := w & 0xff_0000;
    LowByteValue(w >> 16);
    Moves2(w);
    CleanByteShiftsDown(part);
    CleanByteShiftsDown(part >> 8);
  }

  lemma Moves2(w: bv32)
    ensures var part := w & 0xff_0000;
      part & 0xff == 0 && (part >> 8) & 0xff == 0 && (part >> 8) >> 8 == (w >> 16) & 0xff
  {
  }

  lemma Byte3(w: bv32)
    ensures EightShifts(EightShifts(EightShifts(Part3(w)))) == Value(LeWord(w)[3])
  {
    var part := w & 0xff00_0000;
    LowByteValue(w >> 24);
    Moves3(w);
    CleanByteShiftsDown(part);
    CleanByteShiftsDown(part >> 8);
    CleanByteShiftsDown((part >> 8) >> 8);
  }

  lemma Moves3(w: bv32)
    ensures var part := w & 0xff00_0000;
      && part & 0xff == 0 && (part >> 8) & 0xff == 0 && ((part >> 8) >> 8) & 0xff == 0
      && ((part >> 8) >> 8) >> 8 == (w >> 24) & 0xff
  {
  }

  /** The little-endian bytes of a word, each brought down from its place by eight shifts a byte. */
  lemma LeWordSpells()
    ensures Spells(LeWord, EightShifts, Xor, Value, Part0, Part1, Part2, Part3)
  {
    forall w ensures Xor(Xor(Xor(Part0(w), Part1(w)), Part2(w)), Part3(w)) == w { PartsMakeWord(w); }
    forall w ensures Part0(w) == Value(LeWord(w)[0]) { Byte0(w); }
    forall w ensures EightShifts(Part1(w)) == Value(LeWord(w)[1]) { Byte1(w); }
    forall w ensures EightShifts(EightShifts(Part2(w))) == Value(LeWord(w)[2]) { Byte2(w); }
    forall w ensures EightShifts(EightShifts(EightShifts(Part3(w)))) == Value(LeWord(w)[3]) { Byte3(w); }
  }

  lemma FeedIsEightShifts()
    ensures FeedsBy(Feed, EightShifts, Xor, Value)
  {
  }

  lemma EightOf(c: bv32, r: bv32)
    requires Shift(Shift(Shift(Shift(Shift(Shift(Shift(Shift(c)))))))) == r
    ensures EightShifts(c) == r
  {
    IterateEight(Shift, c);
  }

  lemma ResidueOfOnes()
    ensures EightShifts(EightShifts(EightShifts(EightShifts(ALL_ONES)))) == MAGIC
  {
    EightOf(ALL_ONES, 0x2dfd_1072);
    EightOf(0x2dfd_1072, 0xbe26_ed00);
    EightOf(0xbe26_ed00, 0x00be_26ed);
    EightOf(0x00be_26ed, MAGIC);
  }

  lemma OnesComplement()
    ensures Complements(Xor, ALL_ONES)
  {
  }

  /** Main result: data followed by its stored CRC always leaves the magic residue in the register. */
  lemma ResidueIsMagic(data: seq<byte>)
    ensures Register(ALL_ONES, data + LeWord(Crc(data))) == MAGIC
  {
    EightLinear();
    XorAbelian();
    FeedIsEightShifts();
    LeWordSpells();
    OnesComplement();
    Residue(EightShifts, Xor, Feed, Value, LeWord, Part0, Part1, Part2, Part3, ALL_ONES, data);
    ResidueOfOnes();
  }
}
