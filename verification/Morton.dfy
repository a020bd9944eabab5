/**
 * Morton codes: the table-driven encoder and decoder and the bit-deposit ones, against bit interleaving.
 * Every word is held in 64 bits; a 32-bit word is one below 2^32 and its results are cut.
 */
module Morton {

  type Word = bv64

  datatype Width = W32 | W64

  function Cut32(v: Word): Word { v & 0xFFFF_FFFF }

  function Cut(w: Width, v: Word): Word { if w == W32 then Cut32(v) else v }

  /** The bytes of a word. */
  function Size(w: Width): Word { if w == W32 then 4 else 8 }

  ghost predicate Holds(w: Width, v: Word) { Cut(w, v) == v }

  function Bit(v: Word, p: Word): Word
    requires p < 64
  {
    (v >> p) & 1
  }

  // ---- A word is its bits ----

  lemma LowestBit(c: Word, d: Word)
    requires Bit(c, 0) == Bit(d, 0)
    ensures (c ^ d) << 63 == 0
  {
  }

  lemma DifferenceBit(c: Word, d: Word, n: Word)
    requires 0 < n < 64 && (c >> n) & 1 == (d >> n) & 1
    ensures ((c ^ d) >> n) & 1 == 0
  {
  }

  lemma OneMoreBit(e: Word, n: Word)
    requires 0 < n < 64 && (e >> n) & 1 == 0 && e << (64 - n) == 0
    ensures e << (63 - n) == 0
  {
  }

  lemma NoDifference(c: Word, d: Word)
    requires (c ^ d) << 0 == 0
    ensures c == d
  {
  }

  ghost predicate SameUpTo(c: Word, d: Word, n: Word)
  {
    forall p: Word :: p <= n && p < 64 ==> Bit(c, p) == Bit(d, p)
  }

  lemma {:induction false} AgreeBelow(c: Word, d: Word, n: Word)
    requires n < 64 && SameUpTo(c, d, n)
    ensures (c ^ d) << (63 - n) == 0
    decreases n
  {
    if n == 0 {
      LowestBit(c, d);
    } else {
      assert SameUpTo(c, d, n - 1);
      AgreeBelow(c, d, n - 1);
      assert Bit(c, n) == Bit(d, n);
      DifferenceBit(c, d, n);
      OneMoreBit(c ^ d, n);
    }
  }

  /** Words with the same bits are the same. */
  lemma BitsDecide(c: Word, d: Word)
    requires forall p: Word :: p < 64 ==> Bit(c, p) == Bit(d, p)
    ensures c == d
  {
    hide Bit;
    assert SameUpTo(c, d, 63);
    AgreeBelow(c, d, 63);
    NoDifference(c, d);
  }

  // ---- What a code is ----

  ghost predicate Interleaved2(w: Width, code: Word, x: Word, y: Word)
  {
    && Holds(w, code)
    && forall p: Word :: p < 4 * Size(w) ==> Bit(code, 2 * p) == Bit(x, p) && Bit(code, 2 * p + 1) == Bit(y, p)
  }

  /** Three coordinates do not divide a word evenly: the last places go to the first coordinates. */
  ghost predicate Interleaved3(w: Width, code: Word, x: Word, y: Word, z: Word)
  {
    && Holds(w, code)
    && (forall p: Word :: p < 22 && 3 * p < 8 * Size(w) ==> Bit(code, 3 * p) == Bit(x, p))
    && (forall p: Word :: p < 22 && 3 * p + 1 < 8 * Size(w) ==> Bit(code, 3 * p + 1) == Bit(y, p))
    && (forall p: Word :: p < 22 && 3 * p + 2 < 8 * Size(w) ==> Bit(code, 3 * p + 2) == Bit(z, p))
  }

  // ---- Whole-word dilation and contraction ----

  /** Bit `p` of the low half moves to bit `2 * p`. */
  function Spread2(v: Word): Word
  {
    var a := v & 0xFFFF_FFFF;
    var b := (a | (a << 16)) & 0x0000_FFFF_0000_FFFF;
    var c := (b | (b << 8)) & 0x00FF_00FF_00FF_00FF;
    var d := (c | (c << 4)) & 0x0F0F_0F0F_0F0F_0F0F;
    var e := (d | (d << 2)) & 0x3333_3333_3333_3333;
    (e | (e << 1)) & 0x5555_5555_5555_5555
  }

  /** Bit `p` of the low 22 bits moves to bit `3 * p`. */
  function Spread3(v: Word): Word
  {
    var a := v & 0x3F_FFFF;
    var b := (a | (a << 32)) & 0xFFFF_0000_0000_FFFF;
    var c := (b | (b << 16)) & 0x00FF_0000_FF00_00FF;
    var d := (c | (c << 8)) & 0xF00F_00F0_0F00_F00F;
    var e := (d | (d << 4)) & 0x30C3_0C30_C30C_30C3;
    (e | (e << 2)) & 0x9249_2492_4924_9249
  }

  /** Gathers the bits at even places. */
  function Gather2(m: Word): (r: Word)
    ensures r & 0xFFFF_FFFF == r
  {
    var a := m & 0x5555_5555_5555_5555;
    var b := (a | (a >> 1)) & 0x3333_3333_3333_3333;
    var c := (b | (b >> 2)) & 0x0F0F_0F0F_0F0F_0F0F;
    var d := (c | (c >> 4)) & 0x00FF_00FF_00FF_00FF;
    var e := (d | (d >> 8)) & 0x0000_FFFF_0000_FFFF;
    (e | (e >> 16)) & 0xFFFF_FFFF
  }

  /** Gathers the bits at the places divisible by three. */
  function Gather3(m: Word): Word
  {
    var a := m & 0x9249_2492_4924_9249;
    var b := (a | (a >> 2)) & 0x30C3_0C30_C30C_30C3;
    var c := (b | (b >> 4)) & 0xF00F_00F0_0F00_F00F;
    var d := (c | (c >> 8)) & 0x00FF_0000_FF00_00FF;
    var e := (d | (d >> 16)) & 0xFFFF_0000_0000_FFFF;
    (e | (e >> 32)) & 0x3F_FFFF
  }

  function Mix2(a: Word, b: Word): Word { a | (b << 1) }

  function Mix3(a: Word, b: Word, c: Word): Word { a | (b << 1) | (c << 2) }

  function Code2(x: Word, y: Word): Word { Mix2(Spread2(x), Spread2(y)) }

  function Code3(x: Word, y: Word, z: Word): Word { Mix3(Spread3(x), Spread3(y), Spread3(z)) }

  function Left(v: Word, offset: Word): Word
    requires offset < 3
  {
    v << offset
  }

  function Right(v: Word, offset: Word): Word
    requires offset < 3
  {
    v >> offset
  }

  lemma Code2Even(x: Word, y: Word, p: Word)
    requires p < 32
    ensures Bit(Code2(x, y), 2 * p) == Bit(x, p)
  {
  }

  lemma Code2Odd(x: Word, y: Word, p: Word)
    requires p < 32
    ensures Bit(Code2(x, y), 2 * p + 1) == Bit(y, p)
  {
  }

  lemma CutPlace(w: Width, v: Word, p: Word)
    requires p < 8 * Size(w)
    ensures Bit(Cut(w, v), p) == Bit(v, p)
  {
  }

  lemma Code2Place(w: Width, x: Word, y: Word, p: Word)
    requires p < 4 * Size(w)
    ensures Bit(Cut(w, Code2(x, y)), 2 * p) == Bit(x, p) && Bit(Cut(w, Code2(x, y)), 2 * p + 1) == Bit(y, p)
  {
    hide Code2, Cut, Bit;
    Code2Even(x, y, p);
    Code2Odd(x, y, p);
    CutPlace(w, Code2(x, y), 2 * p);
    CutPlace(w, Code2(x, y), 2 * p + 1);
  }

  lemma CutHolds(w: Width, v: Word)
    ensures Holds(w, Cut(w, v))
  {
  }

  lemma Code2Interleaves(w: Width, x: Word, y: Word)
    ensures Interleaved2(w, Cut(w, Code2(x, y)), x, y)
  {
    hide Code2, Cut, Bit;
    CutHolds(w, Code2(x, y));
    forall p: Word | p < 4 * Size(w)
      ensures Bit(Cut(w, Code2(x, y)), 2 * p) == Bit(x, p) && Bit(Cut(w, Code2(x, y)), 2 * p + 1) == Bit(y, p)
    {
      Code2Place(w, x, y, p);
    }
  }

  lemma Code3X(x: Word, y: Word, z: Word, p: Word)
    requires p < 22
    ensures Bit(Code3(x, y, z), 3 * p) == Bit(x, p)
  {
  }

  lemma Code3Y(x: Word, y: Word, z: Word, p: Word)
    requires p < 21
    ensures Bit(Code3(x, y, z), 3 * p + 1) == Bit(y, p)
  {
  }

  lemma Code3Z(x: Word, y: Word, z: Word, p: Word)
    requires p < 21
    ensures Bit(Code3(x, y, z), 3 * p + 2) == Bit(z, p)
  {
  }

  lemma Code3Place(w: Width, x: Word, y: Word, z: Word, p: Word)
    requires p < 22
    ensures 3 * p < 8 * Size(w) ==> Bit(Cut(w, Code3(x, y, z)), 3 * p) == Bit(x, p)
    ensures 3 * p + 1 < 8 * Size(w) ==> Bit(Cut(w, Code3(x, y, z)), 3 * p + 1) == Bit(y, p)
    ensures 3 * p + 2 < 8 * Size(w) ==> Bit(Cut(w, Code3(x, y, z)), 3 * p + 2) == Bit(z, p)
  {
    hide Code3, Cut, Bit;
    if 3 * p < 8 * Size(w) {
      Code3X(x, y, z, p);
      CutPlace(w, Code3(x, y, z), 3 * p);
    }
    if 3 * p + 1 < 8 * Size(w) {
      Code3Y(x, y, z, p);
      CutPlace(w, Code3(x, y, z), 3 * p + 1);
    }
    if 3 * p + 2 < 8 * Size(w) {
      Code3Z(x, y, z, p);
      CutPlace(w, Code3(x, y, z), 3 * p + 2);
    }
  }

  lemma Code3Interleaves(w: Width, x: Word, y: Word, z: Word)
    ensures Interleaved3(w, Cut(w, Code3(x, y, z)), x, y, z)
  {
    hide Code3, Cut, Bit;
    CutHolds(w, Code3(x, y, z));
    forall p: Word | p < 22
      ensures 3 * p < 8 * Size(w) ==> Bit(Cut(w, Code3(x, y, z)), 3 * p) == Bit(x, p)
      ensures 3 * p + 1 < 8 * Size(w) ==> Bit(Cut(w, Code3(x, y, z)), 3 * p + 1) == Bit(y, p)
      ensures 3 * p + 2 < 8 * Size(w) ==> Bit(Cut(w, Code3(x, y, z)), 3 * p + 2) == Bit(z, p)
    {
      Code3Place(w, x, y, z, p);
    }
  }

  // ---- Table generation ----

  function Masks2(i: Word): Word
  {
    if i == 0 then 0xFFFF_FFFF else if i == 1 then 0x0000_FFFF else if i == 2 then 0x00FF_00FF
    else if i == 3 then 0x0F0F_0F0F else if i == 4 then 0x3333_3333 else 0x5555_5555
  }

  function Masks3(i: Word): Word
  {
    if i == 0 then 0x0300_00FF else if i == 1 then 0x0300_F00F else if i == 2 then 0x030C_30C3 else 0x0924_9249
  }

  // Each generator is a loop of masked shifts. `Stage` is the value after some iterations.

  function Dilate2Step(a: Word, i: Word): Word
    requires 1 <= i < 6
  {
    (a | Cut32(a << (16 as Word >> (i - 1)))) & Masks2(i)
  }

  ghost function Dilate2Stage(v: Word, i: Word): Word
    requires 1 <= i <= 6
  {
    var a1 := Dilate2Step(v, 1);
    var a2 := Dilate2Step(a1, 2);
    var a3 := Dilate2Step(a2, 3);
    var a4 := Dilate2Step(a3, 4);
    if i == 1 then v else if i == 2 then a1 else if i == 3 then a2 else if i == 4 then a3 else if i == 5 then a4
    else Dilate2Step(a4, 5)
  }

  lemma Dilate2Done(v: Word)
    requires v < 256
    ensures Dilate2Stage(v, 6) == Spread2(v)
  {
  }

  lemma Dilated2Fits(v: Word, offset: Word)
    requires v < 256 && offset < 2
    ensures Cut32(Spread2(v) << offset) == Spread2(v) << offset
  {
    if offset == 0 {} else {}
  }

  method GenDilate2(v: Word, offset: Word) returns (r: Word)
    requires v < 256 && offset < 2
    ensures r == Spread2(v) << offset
  {
    hide Dilate2Step, Spread2, Cut32;
    var a := v;
    var i: Word := 1;
    while i < 6
      invariant 1 <= i <= 6 && a == Dilate2Stage(v, i)
    {
      a := Dilate2Step(a, i);
      i := i + 1;
    }
    Dilate2Done(v);
    Dilated2Fits(v, offset);
    r := Cut32(a << offset);
  }

  function Dilate3Step(a: Word, i: Word): Word
    requires i < 4
  {
    (a | Cut32(a << (16 as Word >> i))) & Masks3(i)
  }

  ghost function Dilate3Stage(v: Word, i: Word): Word
    requires i <= 4
  {
    var a1 := Dilate3Step(v, 0);
    var a2 := Dilate3Step(a1, 1);
    var a3 := Dilate3Step(a2, 2);
    if i == 0 then v else if i == 1 then a1 else if i == 2 then a2 else if i == 3 then a3 else Dilate3Step(a3, 3)
  }

  lemma Dilate3Done(v: Word)
    requires v < 256
    ensures Dilate3Stage(v, 4) == Spread3(v)
  {
  }

  lemma Dilated3Fits(v: Word, offset: Word)
    requires v < 256 && offset < 3
    ensures Cut32(Spread3(v) << offset) == Spread3(v) << offset
  {
    if offset == 0 {} else if offset == 1 {} else {}
  }

  method GenDilate3(v: Word, offset: Word) returns (r: Word)
    requires v < 256 && offset < 3
    ensures r == Spread3(v) << offset
  {
    hide Dilate3Step, Spread3, Cut32;
    var a := v;
    var i: Word := 0;
    while i < 4
      invariant i <= 4 && a == Dilate3Stage(v, i)
    {
      a := Dilate3Step(a, i);
      i := i + 1;
    }
    Dilate3Done(v);
    Dilated3Fits(v, offset);
    r := Cut32(a << offset);
  }

  function Contract2Step(a: Word, i: Word): Word
    requires i < 5
  {
    (a | (a >> (1 as Word << i))) & Masks2(4 - i)
  }

  ghost function Contract2Stage(v: Word, i: Word): Word
    requires i <= 5
  {
    var a1 := Contract2Step(v, 0);
    var a2 := Contract2Step(a1, 1);
    var a3 := Contract2Step(a2, 2);
    var a4 := Contract2Step(a3, 3);
    if i == 0 then v else if i == 1 then a1 else if i == 2 then a2 else if i == 3 then a3 else if i == 4 then a4
    else Contract2Step(a4, 4)
  }

  /** What the loop starts from. */
  function Contract2Start(v: Word): Word { v & Masks2(5) }

  lemma Contract2Done(v: Word)
    requires v < 256
    ensures Contract2Stage(Contract2Start(v), 5) == Gather2(v)
  {
  }

  method GenContract2(v: Word, offset: Word) returns (r: Word)
    requires v < 256 && offset < 2
    ensures r == Gather2(Right(v, offset))
  {
    hide Contract2Step, Gather2, Contract2Start, Right;
    ShiftedSmall(v, offset);
    var w := Right(v, offset);
    var a := Contract2Start(w);
    var i: Word := 0;
    while i < 5
      invariant i <= 5 && a == Contract2Stage(Contract2Start(w), i)
    {
      a := Contract2Step(a, i);
      i := i + 1;
    }
    Contract2Done(w);
    r := a;
  }

  function Contract3Step(a: Word, i: Word): Word
    requires i < 3
  {
    (a | (a >> (1 as Word << (i + 1)))) & Masks3(2 - i)
  }

  ghost function Contract3Stage(v: Word, i: Word): Word
    requires i <= 3
  {
    var a1 := Contract3Step(v, 0);
    var a2 := Contract3Step(a1, 1);
    if i == 0 then v else if i == 1 then a1 else if i == 2 then a2 else Contract3Step(a2, 2)
  }

  /** What the loop starts from. */
  function Contract3Start(v: Word): Word { v & Masks3(3) }

  lemma Contract3Done(v: Word)
    requires v < 512
    ensures Contract3Stage(Contract3Start(v), 3) == Gather3(v)
  {
  }

  method GenContract3(v: Word, offset: Word) returns (r: Word)
    requires v < 512 && offset < 3
    ensures r == Gather3(Right(v, offset))
  {
    hide Contract3Step, Gather3, Contract3Start, Right;
    ShiftedSmall(v, offset);
    var w := Right(v, offset);
    var a := Contract3Start(w);
    var i: Word := 0;
    while i < 3
      invariant i <= 3 && a == Contract3Stage(Contract3Start(w), i)
    {
      a := Contract3Step(a, i);
      i := i + 1;
    }
    Contract3Done(w);
    r := a;
  }

  // ---- Tables ----

  /** The entries the tables should have. */
  ghost function Dilation2(i: nat, offset: Word): Word
    requires i < 256 && offset < 2
  {
    Spread2(i as Word) << offset
  }

  ghost function Dilation3(i: nat, offset: Word): Word
    requires i < 256 && offset < 3
  {
    Spread3(i as Word) << offset
  }

  ghost function Contraction2(i: nat, offset: Word): Word
    requires i < 256 && offset < 2
  {
    Gather2(Right(i as Word, offset))
  }

  ghost function Contraction3(i: nat, offset: Word): Word
    requires i < 512 && offset < 3
  {
    Gather3(Right(i as Word, offset))
  }

  lemma SmallIndex(i: nat)
    requires i < 512
    ensures (i as Word) < 512 && (i < 256 ==> (i as Word) < 256)
  {
  }

  lemma Fits16(v: Word, offset: Word)
    requires v < 256 && offset < 2
    ensures (Spread2(v) << offset) & 0xFFFF == Spread2(v) << offset
  {
    if offset == 0 {} else {}
  }

  lemma Fits8(v: Word)
    ensures v < 256 ==> Low8(Gather2(v)) == Gather2(v)
    ensures v < 512 ==> Low8(Gather3(v)) == Gather3(v)
  {
  }

  lemma ShiftedSmall(v: Word, offset: Word)
    requires offset < 3
    ensures v < 256 ==> Right(v, offset) < 256
    ensures v < 512 ==> Right(v, offset) < 512
  {
  }

  /** Table entries as generated, cut to the entry type. */
  method DilationEntry2(i: nat, offset: Word) returns (v: Word)
    requires i < 256 && offset < 2
    ensures v == Dilation2(i, offset)
  {
    hide Spread2;
    SmallIndex(i);
    v := GenDilate2(i as Word, offset);
    Fits16(i as Word, offset);
    v := v & 0xFFFF;
  }

  method DilationEntry3(i: nat, offset: Word) returns (v: Word)
    requires i < 256 && offset < 3
    ensures v == Dilation3(i, offset)
  {
    hide Spread3;
    SmallIndex(i);
    v := GenDilate3(i as Word, offset);
  }

  method ContractionEntry2(i: nat, offset: Word) returns (v: Word)
    requires i < 256 && offset < 2
    ensures v == Contraction2(i, offset)
  {
    hide Gather2, Right, Low8;
    SmallIndex(i);
    v := GenContract2(i as Word, offset);
    ShiftedSmall(i as Word, offset);
    Fits8(Right(i as Word, offset));
    v := Low8(v);
  }

  method ContractionEntry3(i: nat, offset: Word) returns (v: Word)
    requires i < 512 && offset < 3
    ensures v == Contraction3(i, offset)
  {
    hide Gather3, Right, Low8;
    SmallIndex(i);
    v := GenContract3(i as Word, offset);
    ShiftedSmall(i as Word, offset);
    Fits8(Right(i as Word, offset));
    v := Low8(v);
  }

  ghost predicate IsDilation2(lut: seq<Word>, offset: Word)
    requires offset < 2
  {
    |lut| == 256 && forall i :: 0 <= i < 256 ==> lut[i] == Dilation2(i, offset)
  }

  method MakeDilation2(offset: Word) returns (lut: seq<Word>)
    requires offset < 2
    ensures IsDilation2(lut, offset)
  {
    hide Dilation2;
    lut := [];
    for i := 0 to 256
      invariant |lut| == i && forall j :: 0 <= j < i ==> lut[j] == Dilation2(j, offset)
    {
      var v := DilationEntry2(i, offset);
      lut := lut + [v];
    }
  }

  ghost predicate IsDilation3(lut: seq<Word>, offset: Word)
    requires offset < 3
  {
    |lut| == 256 && forall i :: 0 <= i < 256 ==> lut[i] == Dilation3(i, offset)
  }

  method MakeDilation3(offset: Word) returns (lut: seq<Word>)
    requires offset < 3
    ensures IsDilation3(lut, offset)
  {
    hide Dilation3;
    lut := [];
    for i := 0 to 256
      invariant |lut| == i && forall j :: 0 <= j < i ==> lut[j] == Dilation3(j, offset)
    {
      var v := DilationEntry3(i, offset);
      lut := lut + [v];
    }
  }

  ghost predicate IsContraction2(lut: seq<Word>, offset: Word)
    requires offset < 2
  {
    |lut| == 256 && forall i :: 0 <= i < 256 ==> lut[i] == Contraction2(i, offset)
  }

  method MakeContraction2(offset: Word) returns (lut: seq<Word>)
    requires offset < 2
    ensures IsContraction2(lut, offset)
  {
    hide Contraction2;
    lut := [];
    for i := 0 to 256
      invariant |lut| == i && forall j :: 0 <= j < i ==> lut[j] == Contraction2(j, offset)
    {
      var v := ContractionEntry2(i, offset);
      lut := lut + [v];
    }
  }

  ghost predicate IsContraction3(lut: seq<Word>, offset: Word)
    requires offset < 3
  {
    |lut| == 512 && forall i :: 0 <= i < 512 ==> lut[i] == Contraction3(i, offset)
  }

  method MakeContraction3(offset: Word) returns (lut: seq<Word>)
    requires offset < 3
    ensures IsContraction3(lut, offset)
  {
    hide Contraction3;
    lut := [];
    for i := 0 to 512
      invariant |lut| == i && forall j :: 0 <= j < i ==> lut[j] == Contraction3(j, offset)
    {
      var v := ContractionEntry3(i, offset);
      lut := lut + [v];
    }
  }

  lemma IndexBack(b: Word)
    requires b < 512
    ensures (b as nat) < 512 && (b as nat) as Word == b
    ensures b < 256 ==> (b as nat) < 256
  {
  }

  lemma DilationOf2(b: Word, offset: Word)
    requires b < 256 && (b as nat) < 256 && offset < 2
    ensures Dilation2(b as nat, offset) == Left(Spread2(b), offset)
  {
    hide Spread2;
    IndexBack(b);
  }

  method Dilated2(lut: seq<Word>, b: Word, ghost offset: Word) returns (v: Word)
    requires b < 256 && offset < 2 && IsDilation2(lut, offset)
    ensures v == Left(Spread2(b), offset)
  {
    hide Spread2, Left, Dilation2;
    IndexBack(b);
    DilationOf2(b, offset);
    v := lut[b as nat];
  }

  lemma DilationOf3(b: Word, offset: Word)
    requires b < 256 && (b as nat) < 256 && offset < 3
    ensures Dilation3(b as nat, offset) == Left(Spread3(b), offset)
  {
    hide Spread3;
    IndexBack(b);
  }

  method Dilated3(lut: seq<Word>, b: Word, ghost offset: Word) returns (v: Word)
    requires b < 256 && offset < 3 && IsDilation3(lut, offset)
    ensures v == Left(Spread3(b), offset)
  {
    hide Spread3, Left, Dilation3;
    IndexBack(b);
    DilationOf3(b, offset);
    v := lut[b as nat];
  }

  // ---- Table-driven encoding ----

  /** Byte `i - 1` of a word. */
  function ByteOf(x: Word, i: Word): Word
    requires 0 < i <= 8
  {
    (x >> ((i - 1) * 8)) & 0xFF
  }

  /** A word without its lowest `i` bytes. */
  ghost function High(x: Word, i: Word): Word
    requires i <= 8
  {
    x >> (i * 8)
  }

  function Shr8(x: Word): Word { x >> 8 }

  function Low8(x: Word): Word { x & 0xFF }

  lemma HighStep(x: Word, i: Word)
    requires 0 < i <= 8
    ensures ByteOf(x, i) == Low8(High(x, i - 1)) && ByteOf(x, i) < 256
    ensures Shr8(High(x, i - 1)) == High(x, i)
  {
  }

  function Wide2(a: Word, b: Word): Word { (a << 16) | b }

  function Wide3(a: Word, b: Word): Word { (a << 24) | b }

  function Or(a: Word, b: Word): Word { a | b }

  function Join2(w: Width, code: Word, dy: Word, dx: Word): Word { Cut(w, Wide2(code, Or(dy, dx))) }

  function Join3(w: Width, code: Word, dz: Word, dy: Word, dx: Word): Word { Cut(w, Wide3(code, Or(Or(dz, dy), dx))) }

  lemma SpreadByte2(x: Word)
    ensures Spread2(x) == Wide2(Spread2(Shr8(x)), Spread2(Low8(x)))
  {
  }

  lemma SpreadByte3(x: Word)
    ensures Spread3(x) == Wide3(Spread3(Shr8(x)), Spread3(Low8(x)))
  {
  }

  // The wiring of the shifts, spelled out on free words and then folded into the names used here.

  lemma CutWiring(c: Word, d: Word)
    ensures (((c & 0xFFFF_FFFF) << 16) | d) & 0xFFFF_FFFF == ((c << 16) | d) & 0xFFFF_FFFF
    ensures (((c & 0xFFFF_FFFF) << 24) | d) & 0xFFFF_FFFF == ((c << 24) | d) & 0xFFFF_FFFF
  {
  }

  lemma CutWide2(c: Word, d: Word)
    ensures Cut32(Wide2(Cut32(c), d)) == Cut32(Wide2(c, d))
  {
    calc {
      Cut32(Wide2(Cut32(c), d));
      (((c & 0xFFFF_FFFF) << 16) | d) & 0xFFFF_FFFF;
      { CutWiring(c, d); }
      ((c << 16) | d) & 0xFFFF_FFFF;
      Cut32(Wide2(c, d));
    }
  }

  lemma CutWide3(c: Word, d: Word)
    ensures Cut32(Wide3(Cut32(c), d)) == Cut32(Wide3(c, d))
  {
    calc {
      Cut32(Wide3(Cut32(c), d));
      (((c & 0xFFFF_FFFF) << 24) | d) & 0xFFFF_FFFF;
      { CutWiring(c, d); }
      ((c << 24) | d) & 0xFFFF_FFFF;
      Cut32(Wide3(c, d));
    }
  }

  /** Cutting early or late makes no difference. */
  lemma CutEarly(w: Width, c: Word, d: Word)
    ensures Cut(w, Wide2(Cut(w, c), d)) == Cut(w, Wide2(c, d))
    ensures Cut(w, Wide3(Cut(w, c), d)) == Cut(w, Wide3(c, d))
  {
    hide Cut32, Wide2, Wide3;
    CutWide2(c, d);
    CutWide3(c, d);
  }

  lemma MixWiring2(xs: Word, ys: Word, xb: Word, yb: Word)
    ensures ((xs | (ys << 1)) << 16) | ((yb << 1) | (xb << 0)) == ((xs << 16) | xb) | (((ys << 16) | yb) << 1)
  {
  }

  lemma MixWiring3(xs: Word, ys: Word, zs: Word, xb: Word, yb: Word, zb: Word)
    ensures ((xs | (ys << 1) | (zs << 2)) << 24) | (((zb << 2) | (yb << 1)) | (xb << 0))
         == ((xs << 24) | xb) | (((ys << 24) | yb) << 1) | (((zs << 24) | zb) << 2)
  {
  }

  lemma Wiring2(xs: Word, ys: Word, xb: Word, yb: Word)
    ensures Wide2(Mix2(xs, ys), Or(Left(yb, 1), Left(xb, 0))) == Mix2(Wide2(xs, xb), Wide2(ys, yb))
  {
    Wiring2Left(xs, ys, xb, yb);
    Wiring2Right(xs, ys, xb, yb);
    hide Wide2, Mix2, Or, Left;
    MixWiring2(xs, ys, xb, yb);
  }

  lemma Wiring2Left(xs: Word, ys: Word, xb: Word, yb: Word)
    ensures Wide2(Mix2(xs, ys), Or(Left(yb, 1), Left(xb, 0))) == ((xs | (ys << 1)) << 16) | ((yb << 1) | (xb << 0))
  {
  }

  lemma Wiring2Right(xs: Word, ys: Word, xb: Word, yb: Word)
    ensures Mix2(Wide2(xs, xb), Wide2(ys, yb)) == ((xs << 16) | xb) | (((ys << 16) | yb) << 1)
  {
  }

  lemma Wiring3(xs: Word, ys: Word, zs: Word, xb: Word, yb: Word, zb: Word)
    ensures Wide3(Mix3(xs, ys, zs), Or(Or(Left(zb, 2), Left(yb, 1)), Left(xb, 0)))
      == Mix3(Wide3(xs, xb), Wide3(ys, yb), Wide3(zs, zb))
  {
    Wiring3Left(xs, ys, zs, xb, yb, zb);
    Wiring3Right(xs, ys, zs, xb, yb, zb);
    hide Wide3, Mix3, Or, Left;
    MixWiring3(xs, ys, zs, xb, yb, zb);
  }

  lemma Wiring3Left(xs: Word, ys: Word, zs: Word, xb: Word, yb: Word, zb: Word)
    ensures Wide3(Mix3(xs, ys, zs), Or(Or(Left(zb, 2), Left(yb, 1)), Left(xb, 0)))
         == ((xs | (ys << 1) | (zs << 2)) << 24) | (((zb << 2) | (yb << 1)) | (xb << 0))
  {
  }

  lemma Wiring3Right(xs: Word, ys: Word, zs: Word, xb: Word, yb: Word, zb: Word)
    ensures Mix3(Wide3(xs, xb), Wide3(ys, yb), Wide3(zs, zb))
      == ((xs << 24) | xb) | (((ys << 24) | yb) << 1) | (((zs << 24) | zb) << 2)
  {
  }

  lemma JoinWiring2(w: Width, xs: Word, ys: Word, xb: Word, yb: Word)
    ensures Join2(w, Cut(w, Mix2(xs, ys)), Left(yb, 1), Left(xb, 0)) == Cut(w, Mix2(Wide2(xs, xb), Wide2(ys, yb)))
  {
    hide Cut, Mix2, Left, Wide2, Or;
    CutEarly(w, Mix2(xs, ys), Or(Left(yb, 1), Left(xb, 0)));
    Wiring2(xs, ys, xb, yb);
  }

  lemma JoinWiring3(w: Width, xs: Word, ys: Word, zs: Word, xb: Word, yb: Word, zb: Word)
    ensures Join3(w, Cut(w, Mix3(xs, ys, zs)), Left(zb, 2), Left(yb, 1), Left(xb, 0))
      == Cut(w, Mix3(Wide3(xs, xb), Wide3(ys, yb), Wide3(zs, zb)))
  {
    hide Cut, Mix3, Left, Wide2, Wide3, Or;
    CutEarly(w, Mix3(xs, ys, zs), Or(Or(Left(zb, 2), Left(yb, 1)), Left(xb, 0)));
    Wiring3(xs, ys, zs, xb, yb, zb);
  }

  lemma Code2Step(w: Width, x: Word, y: Word)
    ensures Join2(w, Cut(w, Code2(Shr8(x), Shr8(y))), Left(Spread2(Low8(y)), 1), Left(Spread2(Low8(x)), 0))
      == Cut(w, Code2(x, y))
  {
    hide Spread2, Join2, Cut, Mix2, Left, Wide2, Shr8, Low8;
    SpreadByte2(x);
    SpreadByte2(y);
    JoinWiring2(w, Spread2(Shr8(x)), Spread2(Shr8(y)), Spread2(Low8(x)), Spread2(Low8(y)));
  }

  lemma Code3Step(w: Width, x: Word, y: Word, z: Word)
    ensures Join3(w, Cut(w, Code3(Shr8(x), Shr8(y), Shr8(z))), Left(Spread3(Low8(z)), 2), Left(Spread3(Low8(y)), 1),
      Left(Spread3(Low8(x)), 0))
         == Cut(w, Code3(x, y, z))
  {
    hide Spread3, Join3, Cut, Mix3, Left, Wide3, Shr8, Low8;
    SpreadByte3(x);
    SpreadByte3(y);
    SpreadByte3(z);
    JoinWiring3(w, Spread3(Shr8(x)), Spread3(Shr8(y)), Spread3(Shr8(z)), Spread3(Low8(x)), Spread3(Low8(y)),
        Spread3(Low8(z)));
  }

  lemma HighEnds(w: Width, x: Word)
    requires Holds(w, x)
    ensures High(x, Size(w)) == 0 && High(x, 0) == x
  {
  }

  lemma CodeOfNothing(w: Width)
    ensures Cut(w, Code2(0, 0)) == 0 && Cut(w, Code3(0, 0, 0)) == 0
  {
  }

  /** The code of the two coordinates; `Code2Interleaves` says what its bits are. */
  method Encode2(w: Width, tx: seq<Word>, ty: seq<Word>, x: Word, y: Word) returns (code: Word)
    requires IsDilation2(tx, 0) && IsDilation2(ty, 1) && Holds(w, x) && Holds(w, y)
    ensures code == Cut(w, Code2(x, y))
  {
    hide Code2, Code3, Cut, Spread2, IsDilation2, Join2, ByteOf, High, Shr8, Low8, Left, Holds;
    code := 0;
    var i := Size(w);
    HighEnds(w, x);
    HighEnds(w, y);
    CodeOfNothing(w);
    while i > 0
      invariant i <= 8 && code == Cut(w, Code2(High(x, i), High(y, i)))
      decreases i
    {
      HighStep(x, i);
      HighStep(y, i);
      Code2Step(w, High(x, i - 1), High(y, i - 1));
      var dy := Dilated2(ty, ByteOf(y, i), 1);
      var dx := Dilated2(tx, ByteOf(x, i), 0);
      code := Join2(w, code, dy, dx);
      i := i - 1;
    }
  }

  /** The code of the three coordinates; `Code3Interleaves` says what its bits are. */
  method Encode3(w: Width, tx: seq<Word>, ty: seq<Word>, tz: seq<Word>, x: Word, y: Word, z: Word) returns (code: Word)
    requires IsDilation3(tx, 0) && IsDilation3(ty, 1) && IsDilation3(tz, 2) && Holds(w, x) && Holds(w, y) && Holds(w, z)
    ensures code == Cut(w, Code3(x, y, z))
  {
    hide Code2, Code3, Cut, Spread3, IsDilation3, Join3, ByteOf, High, Shr8, Low8, Left, Holds;
    code := 0;
    var i := Size(w);
    HighEnds(w, x);
    HighEnds(w, y);
    HighEnds(w, z);
    CodeOfNothing(w);
    while i > 0
      invariant i <= 8 && code == Cut(w, Code3(High(x, i), High(y, i), High(z, i)))
      decreases i
    {
      HighStep(x, i);
      HighStep(y, i);
      HighStep(z, i);
      Code3Step(w, High(x, i - 1), High(y, i - 1), High(z, i - 1));
      var dz := Dilated3(tz, ByteOf(z, i), 2);
      var dy := Dilated3(ty, ByteOf(y, i), 1);
      var dx := Dilated3(tx, ByteOf(x, i), 0);
      code := Join3(w, code, dz, dy, dx);
      i := i - 1;
    }
  }
}
