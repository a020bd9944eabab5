/** Decoding Morton codes by tables, and exactly which coordinates survive the round trip. */
module MortonDecode {
  import opened Morton

  // ---- Table lookups ----

  lemma ContractionOf2(b: Word, offset: Word)
    requires b < 256 && (b as nat) < 256 && offset < 2
    ensures Contraction2(b as nat, offset) == Gather2(Right(b, offset))
  {
    hide Gather2, Right;
    IndexBack(b);
  }

  lemma ContractionOf3(b: Word, offset: Word)
    requires b < 512 && (b as nat) < 512 && offset < 3
    ensures Contraction3(b as nat, offset) == Gather3(Right(b, offset))
  {
    hide Gather3, Right;
    IndexBack(b);
  }

  method Contracted2(lut: seq<Word>, b: Word, ghost offset: Word) returns (v: Word)
    requires b < 256 && offset < 2 && IsContraction2(lut, offset)
    ensures v == Gather2(Right(b, offset))
  {
    hide Gather2, Right, Contraction2;
    IndexBack(b);
    ContractionOf2(b, offset);
    v := lut[b as nat];
  }

  method Contracted3(lut: seq<Word>, b: Word, ghost offset: Word) returns (v: Word)
    requires b < 512 && offset < 3 && IsContraction3(lut, offset)
    ensures v == Gather3(Right(b, offset))
  {
    hide Gather3, Right, Contraction3;
    IndexBack(b);
    ContractionOf3(b, offset);
    v := lut[b as nat];
  }

  // ---- Two dimensions ----

  function ByteFrom(m: Word, i: Word): Word
    requires i < 8
  {
    (m >> (i * 8)) & 0xFF
  }

  predicate Negative(v: Word) { v & 0x8000_0000 != 0 }

  function Extended(v: Word): Word { v | 0xFFFF_FFFF_0000_0000 }

  /** A 32-bit signed value widened to 64 bits. */
  function SignExtend(v: Word): Word
  {
    if Negative(v) then Extended(v) else v
  }

  /** Four bits moved to their place. The shift is made on a 32-bit signed integer before the value is widened. */
  function Placed(w: Width, v: Word, i: Word): Word
    requires i < 8
  {
    var s := Cut32(v << (4 * i));
    if w == W64 then SignExtend(s) else s
  }

  ghost function NibbleOf(g: Word, i: Word): Word
    requires i < 8
  {
    (g >> (4 * i)) & 0xF
  }

  /** The lowest `i` groups of four bits. */
  ghost function Lowest(i: Word): Word
  {
    if i == 0 then 0 else if i == 1 then 0xF else if i == 2 then 0xFF else if i == 3 then 0xFFF
    else if i == 4 then 0xFFFF else if i == 5 then 0xF_FFFF else if i == 6 then 0xFF_FFFF else 0xFFF_FFFF
  }

  ghost function Part(g: Word, i: Word): Word { g & Lowest(i) }

  /** The result after `i` of the bytes. */
  ghost function Upto(w: Width, g: Word, i: Word): Word
    requires i <= 8
  {
    if i < 8 then Part(g, i)
    else if w == W64 then SignExtend(g) else g
  }

  lemma NibbleX(m: Word, i: Word)
    requires i < 8
    ensures Gather2(Right(ByteFrom(m, i), 0)) == NibbleOf(Gather2(Right(m, 0)), i)
  {
    if i < 4 {
      if i == 0 {} else if i == 1 {} else if i == 2 {} else {}
    } else {
      if i == 4 {} else if i == 5 {} else if i == 6 {} else {}
    }
  }

  lemma ByteSmall(m: Word, i: Word)
    requires i < 8
    ensures ByteFrom(m, i) < 256
  {
  }

  lemma NibbleY(m: Word, i: Word)
    requires i < 8
    ensures Gather2(Right(ByteFrom(m, i), 1)) == NibbleOf(Gather2(Right(m, 1)), i)
  {
    if i < 4 {
      if i == 0 {} else if i == 1 {} else if i == 2 {} else {}
    } else {
      if i == 4 {} else if i == 5 {} else if i == 6 {} else {}
    }
  }

  lemma MiddleSign(g: Word, i: Word)
    requires i < 7
    ensures !Negative(Placed(W32, NibbleOf(g, i), i))
  {
    if i == 0 {} else if i == 1 {} else if i == 2 {} else if i == 3 {} else if i == 4 {} else if i == 5 {} else {}
  }

  lemma MiddleWiring(g: Word, i: Word)
    requires i < 7
    ensures Or(Part(g, i), Placed(W32, NibbleOf(g, i), i)) == Part(g, i + 1)
  {
    if i == 0 {} else if i == 1 {} else if i == 2 {} else if i == 3 {} else if i == 4 {} else if i == 5 {} else {}
  }

  lemma TopSign(g: Word)
    ensures Negative(Placed(W32, NibbleOf(g, 7), 7)) <==> Negative(g)
  {
  }

  lemma TopWiring(g: Word)
    ensures Or(Part(g, 7), Placed(W32, NibbleOf(g, 7), 7)) == Cut32(g)
  {
  }

  lemma TopExtends(g: Word)
    ensures Or(Part(g, 7), Extended(Placed(W32, NibbleOf(g, 7), 7))) == Extended(Cut32(g))
  {
  }

  lemma CutSame(g: Word)
    requires g & 0xFFFF_FFFF == g
    ensures Cut32(g) == g
  {
  }

  lemma PlacedIs(w: Width, v: Word, i: Word)
    requires i < 8
    ensures Placed(w, v, i) == if w == W64 then SignExtend(Placed(W32, v, i)) else Placed(W32, v, i)
  {
    hide SignExtend, Cut32;
  }

  lemma UptoStep(w: Width, g: Word, i: Word)
    requires i < 8 && g & 0xFFFF_FFFF == g
    ensures Or(Upto(w, g, i), Placed(w, NibbleOf(g, i), i)) == Upto(w, g, i + 1)
  {
    hide Placed, NibbleOf, Part, Or, Extended, Negative, Cut32;
    PlacedIs(w, NibbleOf(g, i), i);
    if i < 7 {
      MiddleWiring(g, i);
      MiddleSign(g, i);
    } else {
      CutSame(g);
      TopSign(g);
      TopWiring(g);
      TopExtends(g);
    }
  }

  /** Decoding one coordinate: four bits out of each byte of the code. */
  method Axis2(w: Width, lut: seq<Word>, m: Word, ghost offset: Word) returns (a: Word)
    requires offset < 2 && IsContraction2(lut, offset) && Holds(w, m)
    ensures a == Decoded2(w, Gather2(Right(m, offset)))
  {
    hide IsContraction2, Gather2, Right, ByteFrom, Placed, NibbleOf, Upto, Or, Holds, Decoded2;
    a := 0;
    ghost var g := Gather2(Right(m, offset));
    UptoEnds(w, m, offset);
    var i: Word := 0;
    while i < Size(w)
      invariant i <= Size(w) && a == Upto(w, g, i)
      decreases Size(w) - i
    {
      Nibbles(m, i, offset);
      UptoStep(w, g, i);
      var v := Contracted2(lut, ByteFrom(m, i), offset);
      a := Or(a, Placed(w, v, i));
      i := i + 1;
    }
  }

  /** What a decoded coordinate is: the gathered bits, taken as a signed number in a 64-bit key. */
  ghost function Decoded2(w: Width, g: Word): Word
  {
    if w == W64 then SignExtend(g) else g
  }

  lemma Nibbles(m: Word, i: Word, offset: Word)
    requires i < 8 && offset < 2
    ensures ByteFrom(m, i) < 256
    ensures Gather2(Right(ByteFrom(m, i), offset)) == NibbleOf(Gather2(Right(m, offset)), i)
  {
    hide Gather2, ByteFrom, Right, NibbleOf;
    ByteSmall(m, i);
    NibbleX(m, i);
    NibbleY(m, i);
    assert offset == 0 || offset == 1;
  }

  lemma UptoEnds(w: Width, m: Word, offset: Word)
    requires offset < 2 && Holds(w, m)
    ensures Upto(w, Gather2(Right(m, offset)), 0) == 0
    ensures Upto(w, Gather2(Right(m, offset)), Size(w)) == Decoded2(w, Gather2(Right(m, offset)))
  {
    hide Gather2, Right, SignExtend;
    if w == W32 {
      HalfFits(m, offset);
    }
  }

  lemma HalfFits(m: Word, offset: Word)
    requires offset < 2 && Cut32(m) == m
    ensures Gather2(Right(m, offset)) & 0xFFFF == Gather2(Right(m, offset))
  {
  }

  method Decode2(w: Width, cx: seq<Word>, cy: seq<Word>, m: Word) returns (x: Word, y: Word)
    requires IsContraction2(cx, 0) && IsContraction2(cy, 1) && Holds(w, m)
    ensures x == Decoded2(w, Gather2(Right(m, 0))) && y == Decoded2(w, Gather2(Right(m, 1)))
  {
    x := Axis2(w, cx, m, 0);
    y := Axis2(w, cy, m, 1);
  }

  // ---- Three dimensions ----

  function NineFrom(m: Word, i: Word): Word
    requires i < 7
  {
    (m >> (i * 9)) & 0x1FF
  }

  function Triple(v: Word, i: Word): Word
    requires i < 7
  {
    v << (3 * i)
  }

  ghost function TripleOf(g: Word, i: Word): Word
    requires i < 7
  {
    (g >> (3 * i)) & 0x7
  }

  /** The lowest `i` groups of three bits. */
  ghost function Lowest3(i: Word): Word
  {
    if i == 0 then 0 else if i == 1 then 0x7 else if i == 2 then 0x3F else if i == 3 then 0x1FF
    else if i == 4 then 0xFFF else if i == 5 then 0x7FFF else if i == 6 then 0x3_FFFF else 0x1F_FFFF
  }

  lemma NineSmall(m: Word, i: Word)
    requires i < 7
    ensures NineFrom(m, i) < 512
  {
  }

  lemma TripleX(m: Word, i: Word)
    requires i < 7
    ensures Gather3(Right(NineFrom(m, i), 0)) == TripleOf(Gather3(Right(m, 0)), i)
  {
    if i < 4 {
      if i == 0 {} else if i == 1 {} else if i == 2 {} else {}
    } else {
      if i == 4 {} else if i == 5 {} else {}
    }
  }

  lemma TripleY(m: Word, i: Word)
    requires i < 7
    ensures Gather3(Right(NineFrom(m, i), 1)) == TripleOf(Gather3(Right(m, 1)), i)
  {
    if i < 4 {
      if i == 0 {} else if i == 1 {} else if i == 2 {} else {}
    } else {
      if i == 4 {} else if i == 5 {} else {}
    }
  }

  lemma TripleZ(m: Word, i: Word)
    requires i < 7
    ensures Gather3(Right(NineFrom(m, i), 2)) == TripleOf(Gather3(Right(m, 2)), i)
  {
    if i < 4 {
      if i == 0 {} else if i == 1 {} else if i == 2 {} else {}
    } else {
      if i == 4 {} else if i == 5 {} else {}
    }
  }

  lemma Triples(m: Word, i: Word, offset: Word)
    requires i < 7 && offset < 3
    ensures NineFrom(m, i) < 512
    ensures Gather3(Right(NineFrom(m, i), offset)) == TripleOf(Gather3(Right(m, offset)), i)
  {
    hide Gather3, NineFrom, Right, TripleOf;
    NineSmall(m, i);
    TripleX(m, i);
    TripleY(m, i);
    TripleZ(m, i);
    assert offset == 0 || offset == 1 || offset == 2;
  }

  ghost function Upto3(g: Word, i: Word): Word { g & Lowest3(i) }

  lemma Upto3Step(g: Word, i: Word)
    requires i < 7
    ensures Or(Upto3(g, i), Triple(TripleOf(g, i), i)) == Upto3(g, i + 1)
  {
    if i == 0 {} else if i == 1 {} else if i == 2 {} else if i == 3 {} else if i == 4 {} else if i == 5 {} else {}
  }

  function Loops3(w: Width): Word { if w == W32 then 4 else 7 }

  method Axis3(w: Width, lut: seq<Word>, m: Word, ghost offset: Word) returns (a: Word)
    requires offset < 3 && IsContraction3(lut, offset) && Holds(w, m)
    ensures a == Decoded3(w, Gather3(Right(m, offset)))
  {
    hide IsContraction3, Gather3, Right, NineFrom, Triple, TripleOf, Upto3, Or, Holds;
    a := 0;
    ghost var g := Gather3(Right(m, offset));
    Upto3Start(g);
    var i: Word := 0;
    while i < Loops3(w)
      invariant i <= Loops3(w) && a == Upto3(g, i)
      decreases Loops3(w) - i
    {
      Triples(m, i, offset);
      Upto3Step(g, i);
      var v := Contracted3(lut, NineFrom(m, i), offset);
      a := Or(a, Triple(v, i));
      i := i + 1;
    }
  }

  lemma Upto3Start(g: Word)
    ensures Upto3(g, 0) == 0
  {
  }

  /** The coordinate keeps 12 or 21 bits. */
  ghost function Decoded3(w: Width, g: Word): Word { Upto3(g, Loops3(w)) }

  method Decode3(w: Width, cx: seq<Word>, cy: seq<Word>, cz: seq<Word>, m: Word) returns (x: Word, y: Word, z: Word)
    requires IsContraction3(cx, 0) && IsContraction3(cy, 1) && IsContraction3(cz, 2) && Holds(w, m)
    ensures x == Decoded3(w, Gather3(Right(m, 0))) && y == Decoded3(w, Gather3(Right(m, 1)))
      && z == Decoded3(w, Gather3(Right(m, 2)))
  {
    x := Axis3(w, cx, m, 0);
    y := Axis3(w, cy, m, 1);
    z := Axis3(w, cz, m, 2);
  }

  // ---- Which coordinates survive the round trip ----

  /** The value is that of a 32-bit signed number. */
  ghost predicate Signed32(v: Word) { SignExtend(Cut32(v)) == v }

  lemma GatherCode2(x: Word, y: Word)
    ensures Gather2(Right(Code2(x, y), 0)) == Cut32(x) && Gather2(Right(Code2(x, y), 1)) == Cut32(y)
  {
  }

  lemma GatherCut2(x: Word, y: Word)
    ensures Gather2(Right(Cut32(Code2(x, y)), 0)) == x & 0xFFFF && Gather2(Right(Cut32(Code2(x, y)), 1)) == y & 0xFFFF
  {
  }

  /** With 32-bit keys the coordinates below 2^16 come back, and no others. */
  lemma RoundTrip2Narrow(x: Word, y: Word)
    ensures var m := Cut(W32, Code2(x, y));
      Decoded2(W32, Gather2(Right(m, 0))) == x && Decoded2(W32, Gather2(Right(m, 1))) == y
      <==> x < 0x1_0000 && y < 0x1_0000
  {
    hide Gather2, Right, Code2;
    GatherCut2(x, y);
    Below(x);
    Below(y);
  }

  lemma Below(v: Word)
    ensures v & 0xFFFF == v <==> v < 0x1_0000
    ensures v & 0x7FF == v <==> v < 0x800
    ensures v & 0x3FF == v <==> v < 0x400
    ensures v & 0x1F_FFFF == v <==> v < 0x20_0000
  {
  }

  /** With 64-bit keys it is the values of 32-bit signed numbers: of those below 2^32, the ones below 2^31. */
  lemma RoundTrip2Wide(x: Word, y: Word)
    ensures var m := Cut(W64, Code2(x, y));
      Decoded2(W64, Gather2(Right(m, 0))) == x && Decoded2(W64, Gather2(Right(m, 1))) == y
      <==> Signed32(x) && Signed32(y)
  {
    hide Gather2, Right, Code2, SignExtend, Cut32;
    GatherCode2(x, y);
  }

  lemma SignedRange(v: Word)
    ensures Signed32(v) <==> v < 0x8000_0000 || v >= 0xFFFF_FFFF_8000_0000
  {
    hide Negative, Extended, Cut32;
    SignOf(v);
    Halves(v);
  }

  lemma SignOf(v: Word)
    ensures Negative(Cut32(v)) <==> v & 0x8000_0000 != 0
    ensures Cut32(v) == v & 0xFFFF_FFFF && Extended(Cut32(v)) == (v & 0xFFFF_FFFF) | 0xFFFF_FFFF_0000_0000
  {
  }

  lemma Halves(v: Word)
    ensures v & 0x8000_0000 == 0 && v & 0xFFFF_FFFF == v <==> v < 0x8000_0000
    ensures v & 0x8000_0000 != 0 && (v & 0xFFFF_FFFF) | 0xFFFF_FFFF_0000_0000 == v <==> v >= 0xFFFF_FFFF_8000_0000
  {
  }

  lemma GatherWideX(x: Word, y: Word, z: Word)
    ensures Gather3(Right(Code3(x, y, z), 0)) == x & 0x3F_FFFF
  {
  }

  lemma GatherWideY(x: Word, y: Word, z: Word)
    ensures Gather3(Right(Code3(x, y, z), 1)) == y & 0x1F_FFFF
  {
  }

  lemma GatherWideZ(x: Word, y: Word, z: Word)
    ensures Gather3(Right(Code3(x, y, z), 2)) == z & 0x1F_FFFF
  {
  }

  lemma GatherWide3(x: Word, y: Word, z: Word)
    ensures Gather3(Right(Code3(x, y, z), 0)) == x & 0x3F_FFFF
    ensures Gather3(Right(Code3(x, y, z), 1)) == y & 0x1F_FFFF
    ensures Gather3(Right(Code3(x, y, z), 2)) == z & 0x1F_FFFF
  {
    hide Gather3, Right, Code3, Cut32;
    GatherWideX(x, y, z);
    GatherWideY(x, y, z);
    GatherWideZ(x, y, z);
  }

  lemma GatherNarrowX(x: Word, y: Word, z: Word)
    ensures Gather3(Right(Cut32(Code3(x, y, z)), 0)) == x & 0x7FF
  {
  }

  lemma GatherNarrowY(x: Word, y: Word, z: Word)
    ensures Gather3(Right(Cut32(Code3(x, y, z)), 1)) == y & 0x7FF
  {
  }

  lemma GatherNarrowZ(x: Word, y: Word, z: Word)
    ensures Gather3(Right(Cut32(Code3(x, y, z)), 2)) == z & 0x3FF
  {
  }

  lemma GatherNarrow3(x: Word, y: Word, z: Word)
    ensures Gather3(Right(Cut32(Code3(x, y, z)), 0)) == x & 0x7FF
    ensures Gather3(Right(Cut32(Code3(x, y, z)), 1)) == y & 0x7FF
    ensures Gather3(Right(Cut32(Code3(x, y, z)), 2)) == z & 0x3FF
  {
    hide Gather3, Right, Code3, Cut32;
    GatherNarrowX(x, y, z);
    GatherNarrowY(x, y, z);
    GatherNarrowZ(x, y, z);
  }

  lemma Nested(v: Word)
    ensures (v & 0x7FF) & 0xFFF == v & 0x7FF && (v & 0x3FF) & 0xFFF == v & 0x3FF
    ensures (v & 0x3F_FFFF) & 0x1F_FFFF == v & 0x1F_FFFF && (v & 0x1F_FFFF) & 0x1F_FFFF == v & 0x1F_FFFF
  {
  }

  lemma Upto3Is(g: Word)
    ensures Upto3(g, 4) == g & 0xFFF && Upto3(g, 7) == g & 0x1F_FFFF
  {
  }

  lemma KeptNarrow(v: Word)
    ensures Upto3(v & 0x7FF, 4) == v & 0x7FF && Upto3(v & 0x3FF, 4) == v & 0x3FF
  {
    hide Upto3;
    Nested(v);
    Upto3Is(v & 0x7FF);
    Upto3Is(v & 0x3FF);
  }

  lemma KeptWide(v: Word)
    ensures Upto3(v & 0x3F_FFFF, 7) == v & 0x1F_FFFF && Upto3(v & 0x1F_FFFF, 7) == v & 0x1F_FFFF
  {
    hide Upto3;
    Nested(v);
    Upto3Is(v & 0x3F_FFFF);
    Upto3Is(v & 0x1F_FFFF);
  }

  /** With 32-bit keys the first two coordinates keep eleven bits and the third ten. */
  lemma RoundTrip3Narrow(x: Word, y: Word, z: Word)
    ensures var m := Cut(W32, Code3(x, y, z));
      Decoded3(W32, Gather3(Right(m, 0))) == x && Decoded3(W32, Gather3(Right(m, 1))) == y
      && Decoded3(W32, Gather3(Right(m, 2))) == z
      <==> x < 0x800 && y < 0x800 && z < 0x400
  {
    hide Gather3, Right, Code3, Upto3;
    GatherNarrow3(x, y, z);
    KeptNarrow(x);
    KeptNarrow(y);
    KeptNarrow(z);
    Below(x);
    Below(y);
    Below(z);
  }

  /** With 64-bit keys every coordinate keeps 21 bits. */
  lemma RoundTrip3Wide(x: Word, y: Word, z: Word)
    ensures var m := Cut(W64, Code3(x, y, z));
      Decoded3(W64, Gather3(Right(m, 0))) == x && Decoded3(W64, Gather3(Right(m, 1))) == y
      && Decoded3(W64, Gather3(Right(m, 2))) == z
      <==> x < 0x20_0000 && y < 0x20_0000 && z < 0x20_0000
  {
    hide Gather3, Right, Code3, Upto3;
    GatherWide3(x, y, z);
    KeptWide(x);
    KeptWide(y);
    KeptWide(z);
    Below(x);
    Below(y);
    Below(z);
  }
}
