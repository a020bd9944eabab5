/** Morton codes by bit deposit and extraction, the second implementation of the same codes. */
module MortonBits {
  import opened Morton
  import opened MortonDecode

  // ---- The two instructions ----

  /** Deposits the low bits of `src`, in order, at the set bits of `mask`. */
  function Pdep(src: Word, mask: Word): Word
    decreases mask
  {
    if mask == 0 then 0
    else if Odd(mask) then Push(Pdep(Half(src), Half(mask)), src)
    else Twice(Pdep(src, Half(mask)))
  }

  /** Extracts the bits of `src` at the set bits of `mask` into the low bits. */
  function Pext(src: Word, mask: Word): Word
    decreases mask
  {
    if mask == 0 then 0
    else if Odd(mask) then Push(Pext(Half(src), Half(mask)), src)
    else Pext(Half(src), Half(mask))
  }

  predicate Odd(v: Word) { v & 1 == 1 }

  function Half(v: Word): (r: Word)
    ensures v != 0 ==> r < v
  {
    v >> 1
  }

  function Twice(v: Word): Word { v << 1 }

  function Push(v: Word, bit: Word): Word { (v << 1) | (bit & 1) }

  // ---- Masks with a tooth every two or three bits ----

  ghost predicate Comb2(mask: Word)
  {
    mask & 0xAAAA_AAAA_AAAA_AAAA == 0 && (mask >> 2) & !mask == 0
  }

  ghost predicate Comb3(mask: Word)
  {
    mask & 0x6DB6_DB6D_B6DB_6DB6 == 0 && (mask >> 3) & !mask == 0
  }

  function And(a: Word, b: Word): Word { a & b }

  lemma Comb2Step(mask: Word)
    requires Comb2(mask) && mask != 0
    ensures Odd(mask) && !Odd(Half(mask)) && Comb2(Half(Half(mask)))
  {
  }

  lemma Comb3Step(mask: Word)
    requires Comb3(mask) && mask != 0
    ensures Odd(mask) && !Odd(Half(mask)) && !Odd(Half(Half(mask))) && Comb3(Half(Half(Half(mask))))
  {
  }

  lemma Deposit2(x: Word, mask: Word)
    requires Odd(mask) && !Odd(Half(mask))
    ensures Push(Twice(And(Spread2(Half(x)), Half(Half(mask)))), x) == And(Spread2(x), mask)
  {
  }

  lemma Deposit3(x: Word, mask: Word)
    requires Odd(mask) && !Odd(Half(mask)) && !Odd(Half(Half(mask)))
    ensures Push(Twice(Twice(And(Spread3(Half(x)), Half(Half(Half(mask)))))), x) == And(Spread3(x), mask)
  {
  }

  lemma Extract2(m: Word, mask: Word)
    requires Odd(mask) && !Odd(Half(mask))
    ensures Push(Gather2(And(Half(Half(m)), Half(Half(mask)))), m) == Gather2(And(m, mask))
  {
  }

  lemma Extract3(m: Word, mask: Word)
    requires Odd(mask) && !Odd(Half(mask)) && !Odd(Half(Half(mask)))
    ensures Push(Gather3(And(Half(Half(Half(m))), Half(Half(Half(mask))))), m) == Gather3(And(m, mask))
  {
  }

  lemma Zeros(m: Word)
    ensures Twice(0) == 0 && Half(0) == 0 && And(m, 0) == 0 && Gather2(0) == 0 && Gather3(0) == 0
  {
  }

  lemma PdepEven(src: Word, mask: Word)
    requires !Odd(mask)
    ensures Pdep(src, mask) == Twice(Pdep(src, Half(mask)))
  {
    hide Odd, Half, Twice, Push;
    Zeros(0);
  }

  lemma PextEven(src: Word, mask: Word)
    requires !Odd(mask)
    ensures Pext(src, mask) == Pext(Half(src), Half(mask))
  {
    hide Odd, Half, Twice, Push;
    Zeros(0);
  }

  lemma Shrinks(mask: Word)
    requires mask != 0
    ensures Half(Half(mask)) < mask && Half(Half(Half(mask))) < mask
  {
  }

  /** Depositing along a comb is dilating. */
  lemma {:induction false} PdepComb2(x: Word, mask: Word)
    requires Comb2(mask)
    ensures Pdep(x, mask) == And(Spread2(x), mask)
    decreases mask
  {
    hide Odd, Half, Twice, Push, Comb2, Spread2, And;
    if mask == 0 {
      Zeros(Spread2(x));
    } else {
      Comb2Step(mask);
      Shrinks(mask);
      PdepEven(Half(x), Half(mask));
      PdepComb2(Half(x), Half(Half(mask)));
      Deposit2(x, mask);
    }
  }

  lemma {:induction false} PdepComb3(x: Word, mask: Word)
    requires Comb3(mask)
    ensures Pdep(x, mask) == And(Spread3(x), mask)
    decreases mask
  {
    hide Odd, Half, Twice, Push, Comb3, Spread3, And;
    if mask == 0 {
      Zeros(Spread3(x));
    } else {
      Comb3Step(mask);
      Shrinks(mask);
      PdepEven(Half(x), Half(mask));
      PdepEven(Half(x), Half(Half(mask)));
      PdepComb3(Half(x), Half(Half(Half(mask))));
      Deposit3(x, mask);
    }
  }

  /** Extracting along a comb is gathering. */
  lemma {:induction false} PextComb2(m: Word, mask: Word)
    requires Comb2(mask)
    ensures Pext(m, mask) == Gather2(And(m, mask))
    decreases mask
  {
    hide Odd, Half, Twice, Push, Comb2, Gather2, And;
    if mask == 0 {
      Zeros(m);
    } else {
      Comb2Step(mask);
      Shrinks(mask);
      PextEven(Half(m), Half(mask));
      PextComb2(Half(Half(m)), Half(Half(mask)));
      Extract2(m, mask);
    }
  }

  lemma {:induction false} PextComb3(m: Word, mask: Word)
    requires Comb3(mask)
    ensures Pext(m, mask) == Gather3(And(m, mask))
    decreases mask
  {
    hide Odd, Half, Twice, Push, Comb3, Gather3, And;
    if mask == 0 {
      Zeros(m);
    } else {
      Comb3Step(mask);
      Shrinks(mask);
      PextEven(Half(m), Half(mask));
      PextEven(Half(Half(m)), Half(Half(mask)));
      PextComb3(Half(Half(Half(m))), Half(Half(Half(mask))));
      Extract3(m, mask);
    }
  }

  // ---- Two dimensions ----

  function MaskX2(w: Width): Word { if w == W32 then 0x5555_5555 else 0x5555_5555_5555_5555 }

  function MaskY2(w: Width): Word { if w == W32 then 0xAAAA_AAAA else 0xAAAA_AAAA_AAAA_AAAA }

  function BitsEncode2(w: Width, x: Word, y: Word): Word { Or(Pdep(x, MaskX2(w)), Pdep(y, MaskY2(w))) }

  function BitsDecode2(w: Width, m: Word): (Word, Word) { (Pext(m, MaskX2(w)), Pext(m, MaskY2(w))) }

  lemma Masks2Are(w: Width)
    ensures Comb2(MaskX2(w)) && !Odd(MaskY2(w)) && Half(MaskY2(w)) == MaskX2(w)
  {
  }

  lemma DepositNarrow2(x: Word, y: Word)
    ensures Or(And(Spread2(x), 0x5555_5555), Twice(And(Spread2(y), 0x5555_5555))) == Cut32(Code2(x, y))
  {
  }

  lemma DepositWide2(x: Word, y: Word)
    ensures Or(And(Spread2(x), 0x5555_5555_5555_5555), Twice(And(Spread2(y), 0x5555_5555_5555_5555))) == Code2(x, y)
  {
  }

  lemma Depositing2(w: Width, x: Word, y: Word)
    ensures Or(And(Spread2(x), MaskX2(w)), Twice(And(Spread2(y), MaskX2(w)))) == Cut(w, Code2(x, y))
  {
    hide Or, And, Spread2, Twice, Code2, Cut32;
    DepositNarrow2(x, y);
    DepositWide2(x, y);
  }

  /** Both implementations give the same code for all inputs. */
  lemma SameCode2(w: Width, x: Word, y: Word)
    ensures BitsEncode2(w, x, y) == Cut(w, Code2(x, y))
  {
    hide Pdep, Or, And, Spread2, Code2, Cut, Twice, MaskX2, MaskY2, Half, Odd, Comb2;
    Masks2Are(w);
    PdepEven(y, MaskY2(w));
    PdepComb2(x, MaskX2(w));
    PdepComb2(y, MaskX2(w));
    Depositing2(w, x, y);
  }

  /** Gathering only looks at the teeth. */
  lemma Teeth2(m: Word)
    ensures Gather2(And(m, 0x5555_5555_5555_5555)) == Gather2(m)
  {
  }

  lemma Teeth3(m: Word)
    ensures Gather3(And(m, 0x9249_2492_4924_9249)) == Gather3(m)
  {
  }

  lemma Shifts(m: Word)
    ensures Right(m, 0) == m && Right(m, 1) == Half(m) && Right(m, 2) == Half(Half(m))
  {
  }

  lemma NarrowTeeth(m: Word)
    requires Cut32(m) == m
    ensures And(m, 0x5555_5555) == And(m, 0x5555_5555_5555_5555)
    ensures And(Half(m), 0x5555_5555) == And(Half(m), 0x5555_5555_5555_5555)
  {
  }

  lemma NarrowTeeth3(m: Word)
    requires Cut32(m) == m
    ensures And(m, 0x4924_9249) == And(m, 0x9249_2492_4924_9249)
    ensures And(Half(m), 0x4924_9249) == And(Half(m), 0x9249_2492_4924_9249)
    ensures And(Half(Half(m)), 0x0924_9249) == And(Half(Half(m)), 0x9249_2492_4924_9249)
  {
  }

  lemma WideTeeth3(m: Word)
    ensures And(Half(m), 0x1249_2492_4924_9249) == And(Half(m), 0x9249_2492_4924_9249)
    ensures And(Half(Half(m)), 0x1249_2492_4924_9249) == And(Half(Half(m)), 0x9249_2492_4924_9249)
  {
  }

  lemma Extracting2(w: Width, m: Word)
    requires Holds(w, m)
    ensures Gather2(And(m, MaskX2(w))) == Gather2(Right(m, 0))
    ensures Gather2(And(Half(m), MaskX2(w))) == Gather2(Right(m, 1))
  {
    hide And, Gather2, Right, Half, Cut32;
    Teeth2(m);
    Teeth2(Half(m));
    Shifts(m);
    if w == W32 {
      NarrowTeeth(m);
    }
  }

  lemma BitsDecodes2(w: Width, m: Word)
    requires Holds(w, m)
    ensures BitsDecode2(w, m) == (Gather2(Right(m, 0)), Gather2(Right(m, 1)))
  {
    hide Pext, And, Gather2, Right, MaskX2, MaskY2, Half, Odd, Comb2, Holds;
    Masks2Are(w);
    PextEven(m, MaskY2(w));
    PextComb2(m, MaskX2(w));
    PextComb2(Half(m), MaskX2(w));
    Extracting2(w, m);
  }

  // ---- Three dimensions ----

  function MaskX3(w: Width): Word { if w == W32 then 0x4924_9249 else 0x9249_2492_4924_9249 }

  function MaskY3(w: Width): Word { if w == W32 then 0x9249_2492 else 0x2492_4924_9249_2492 }

  function MaskZ3(w: Width): Word { if w == W32 then 0x2492_4924 else 0x4924_9249_2492_4924 }

  function BitsEncode3(w: Width, x: Word, y: Word, z: Word): Word
  {
    Or(Or(Pdep(x, MaskX3(w)), Pdep(y, MaskY3(w))), Pdep(z, MaskZ3(w)))
  }

  function BitsDecode3(w: Width, m: Word): (Word, Word, Word)
  {
    (Pext(m, MaskX3(w)), Pext(m, MaskY3(w)), Pext(m, MaskZ3(w)))
  }

  lemma Masks3Are(w: Width)
    ensures Comb3(MaskX3(w)) && Comb3(CombY3(w)) && Comb3(CombZ3(w))
    ensures !Odd(MaskY3(w)) && Half(MaskY3(w)) == CombY3(w)
    ensures !Odd(MaskZ3(w)) && !Odd(Half(MaskZ3(w))) && Half(Half(MaskZ3(w))) == CombZ3(w)
  {
  }

  lemma DepositNarrow3(x: Word, y: Word, z: Word)
    ensures Or(Or(And(Spread3(x), 0x4924_9249), Twice(And(Spread3(y), 0x4924_9249))),
      Twice(Twice(And(Spread3(z), 0x0924_9249))))
         == Cut32(Code3(x, y, z))
  {
  }

  lemma DepositWide3(x: Word, y: Word, z: Word)
    ensures Or(Or(And(Spread3(x), 0x9249_2492_4924_9249), Twice(And(Spread3(y), 0x1249_2492_4924_9249))),
      Twice(Twice(And(Spread3(z), 0x1249_2492_4924_9249))))
         == Code3(x, y, z)
  {
  }

  /** The masks of the second and third coordinate are combs shifted by one and two places. */
  ghost function CombY3(w: Width): Word { if w == W32 then 0x4924_9249 else 0x1249_2492_4924_9249 }

  ghost function CombZ3(w: Width): Word { if w == W32 then 0x0924_9249 else 0x1249_2492_4924_9249 }

  lemma Depositing3(w: Width, x: Word, y: Word, z: Word)
    ensures Or(Or(And(Spread3(x), MaskX3(w)), Twice(And(Spread3(y), CombY3(w)))),
      Twice(Twice(And(Spread3(z), CombZ3(w)))))
         == Cut(w, Code3(x, y, z))
  {
    hide Or, And, Spread3, Twice, Code3, Cut32;
    DepositNarrow3(x, y, z);
    DepositWide3(x, y, z);
  }

  lemma SameCode3(w: Width, x: Word, y: Word, z: Word)
    ensures BitsEncode3(w, x, y, z) == Cut(w, Code3(x, y, z))
  {
    hide Pdep, Or, And, Spread3, Code3, Cut, Twice, MaskX3, MaskY3, MaskZ3, CombY3, CombZ3, Half, Odd, Comb3;
    Masks3Are(w);
    PdepEven(y, MaskY3(w));
    PdepEven(z, MaskZ3(w));
    PdepEven(z, Half(MaskZ3(w)));
    PdepComb3(x, MaskX3(w));
    PdepComb3(y, CombY3(w));
    PdepComb3(z, CombZ3(w));
    Depositing3(w, x, y, z);
  }

  lemma Extracting3(w: Width, m: Word)
    requires Holds(w, m)
    ensures Gather3(And(m, MaskX3(w))) == Gather3(Right(m, 0))
    ensures Gather3(And(Half(m), CombY3(w))) == Gather3(Right(m, 1))
    ensures Gather3(And(Half(Half(m)), CombZ3(w))) == Gather3(Right(m, 2))
  {
    hide And, Gather3, Right, Half, Cut32;
    Teeth3(m);
    Teeth3(Half(m));
    Teeth3(Half(Half(m)));
    Shifts(m);
    if w == W32 {
      NarrowTeeth3(m);
    } else {
      WideTeeth3(m);
    }
  }

  lemma BitsDecodes3(w: Width, m: Word)
    requires Holds(w, m)
    ensures BitsDecode3(w, m) == (Gather3(Right(m, 0)), Gather3(Right(m, 1)), Gather3(Right(m, 2)))
  {
    hide Pext, And, Gather3, Right, MaskX3, MaskY3, MaskZ3, CombY3, CombZ3, Half, Odd, Comb3, Holds;
    Masks3Are(w);
    PextEven(m, MaskY3(w));
    PextEven(m, MaskZ3(w));
    PextEven(Half(m), Half(MaskZ3(w)));
    PextComb3(m, MaskX3(w));
    PextComb3(Half(m), CombY3(w));
    PextComb3(Half(Half(m)), CombZ3(w));
    Extracting3(w, m);
  }

  // ---- Round trips ----

  lemma Widths(v: Word)
    ensures Cut32(v) == v <==> v < 0x1_0000_0000
    ensures v & 0x3F_FFFF == v <==> v < 0x40_0000
  {
  }

  /** Bit extraction brings back every coordinate that fits its half of the key. */
  lemma BitsRoundTrip2(w: Width, x: Word, y: Word)
    ensures BitsDecode2(w, BitsEncode2(w, x, y)) == (x, y) <==>
      if w == W32 then x < 0x1_0000 && y < 0x1_0000 else x < 0x1_0000_0000 && y < 0x1_0000_0000
  {
    hide BitsDecode2, BitsEncode2, Code2, Cut32, Gather2, Right, Holds;
    SameCode2(w, x, y);
    CutHolds(w, Code2(x, y));
    BitsDecodes2(w, Cut(w, Code2(x, y)));
    if w == W32 {
      GatherCut2(x, y);
      Below(x);
      Below(y);
    } else {
      GatherCode2(x, y);
      Widths(x);
      Widths(y);
    }
  }

  lemma BitsRoundTrip3Narrow(x: Word, y: Word, z: Word)
    ensures BitsDecode3(W32, BitsEncode3(W32, x, y, z)) == (x, y, z) <==> x < 0x800 && y < 0x800 && z < 0x400
  {
    hide BitsDecode3, BitsEncode3, Code3, Cut32, Gather3, Right, Holds;
    SameCode3(W32, x, y, z);
    CutHolds(W32, Code3(x, y, z));
    BitsDecodes3(W32, Cut32(Code3(x, y, z)));
    GatherNarrow3(x, y, z);
    Below(x);
    Below(y);
    Below(z);
  }

  /** The first coordinate also owns bit 63 of the key. */
  lemma BitsRoundTrip3Wide(x: Word, y: Word, z: Word)
    ensures BitsDecode3(W64, BitsEncode3(W64, x, y, z)) == (x, y, z)
      <==> x < 0x40_0000 && y < 0x20_0000 && z < 0x20_0000
  {
    hide BitsDecode3, BitsEncode3, Code3, Cut32, Gather3, Right;
    SameCode3(W64, x, y, z);
    BitsDecodes3(W64, Code3(x, y, z));
    GatherWide3(x, y, z);
    Widths(x);
    Below(y);
    Below(z);
  }

  lemma TopPair(m: Word)
    ensures Negative(Gather2(Right(m, 0))) <==> m & 0x4000_0000_0000_0000 != 0
    ensures Negative(Gather2(Right(m, 1))) <==> m & 0x8000_0000_0000_0000 != 0
    ensures m < 0x4000_0000_0000_0000 <==> m & 0x4000_0000_0000_0000 == 0 && m & 0x8000_0000_0000_0000 == 0
  {
  }

  lemma ExtendChanges(v: Word)
    requires v & 0xFFFF_FFFF == v
    ensures SignExtend(v) == v <==> !Negative(v)
  {
  }

  /** On 64-bit keys the two decoders agree exactly on the keys whose top two bits are clear. */
  lemma DecodersAgree2(m: Word)
    ensures BitsDecode2(W64, m) == (Decoded2(W64, Gather2(Right(m, 0))), Decoded2(W64, Gather2(Right(m, 1))))
      <==> m < 0x4000_0000_0000_0000
  {
    hide BitsDecode2, Gather2, Right, SignExtend, Negative;
    BitsDecodes2(W64, m);
    ExtendChanges(Gather2(Right(m, 0)));
    ExtendChanges(Gather2(Right(m, 1)));
    TopPair(m);
  }
}
