/** What the primitives of the digest do to bits and bytes. */
module Md5Bits {
  import opened Bytes
  import opened Md5

  // ---- The round functions ----

  // A mask picks places of the words; a mask of a single place picks one bit.

  /** A word under the mask of one place is all ones there or all zeros. */
  lemma OnePlace(v: bv32, p: bv32)
    requires p < 32
    ensures v & (1 << p) == 0 || v & (1 << p) == 1 << p
  {
  }

  /** The first function takes y's bits where x has ones and z's bits where x has zeros. */
  lemma Mix0Bits(x: bv32, y: bv32, z: bv32, m: bv32)
    ensures x & m == m ==> Mix(0, x, y, z) & m == y & m
    ensures x & m == 0 ==> Mix(0, x, y, z) & m == z & m
  {
  }

  /** The second takes x's bits where z has ones and y's bits where z has zeros. */
  lemma Mix1Bits(x: bv32, y: bv32, z: bv32, m: bv32)
    ensures z & m == m ==> Mix(1, x, y, z) & m == x & m
    ensures z & m == 0 ==> Mix(1, x, y, z) & m == y & m
  {
  }

  /** The third is the parity: z's bits where x and y agree and the opposite ones where they do not. */
  lemma Mix2Bits(x: bv32, y: bv32, z: bv32, m: bv32)
    ensures x & m == y & m ==> Mix(2, x, y, z) & m == z & m
    ensures x & m == !y & m ==> Mix(2, x, y, z) & m == !z & m
  {
  }

  /** The fourth turns y's bits over where z has zeros, and tells x's and y's bits apart where z has ones. */
  lemma Mix3Bits(x: bv32, y: bv32, z: bv32, m: bv32)
    ensures z & m == 0 ==> Mix(3, x, y, z) & m == !y & m
    ensures z & m == m ==> Mix(3, x, y, z) & m == (x ^ y) & m
  {
  }

  // ---- Rotation, words and shift amounts ----

  /** Rotating by `s` brings bit `p - s`, counted round the word, to place `p`. */
  lemma RotateBit(x: bv32, s: bv32, p: bv32)
    requires 0 < s < 32 && p < 32
    ensures (RotateLeft(x, s) >> p) & 1 == (x >> ((p - s) % 32)) & 1
  {
    if s == 1 {} else if s == 2 {} else if s == 3 {} else if s == 4 {} else if s == 5 {}
    else if s == 6 {} else if s == 7 {} else if s == 8 {} else if s == 9 {} else if s == 10 {}
    else if s == 11 {} else if s == 12 {} else if s == 13 {} else if s == 14 {} else if s == 15 {}
    else if s == 16 {} else if s == 17 {} else if s == 18 {} else if s == 19 {} else if s == 20 {}
    else if s == 21 {} else if s == 22 {} else if s == 23 {} else if s == 24 {} else if s == 25 {}
    else if s == 26 {} else if s == 27 {} else if s == 28 {} else if s == 29 {} else if s == 30 {}
  }

  /** A word is the little-endian value of its four bytes. */
  lemma {:induction false} WordIsValue(bytes: seq<Octet>, at: nat)
    requires at + 4 <= |bytes|
    ensures Value(bytes[at..at + 4]) < TWO32 && Word(bytes, at) == Value(bytes[at..at + 4]) as bv32
  {
    var s := bytes[at..at + 4];
    var b0: int, b1: int, b2: int, b3: int := bytes[at], bytes[at + 1], bytes[at + 2], bytes[at + 3];
    assert Value(s) == s[0] + 256 * Value(s[1..]);
    assert Value(s[1..]) == s[1] + 256 * Value(s[1..][1..]);
    assert Value(s[1..][1..]) == s[2] + 256 * Value(s[1..][1..][1..]);
    assert Value(s[1..][1..][1..]) == s[3];
    assert Value(s) == b0 + 0x100 * b1 + 0x1_0000 * b2 + 0x100_0000 * b3;
  }

  /** A block is read as sixteen such words, in order. */
  lemma WordsAreValues(bytes: seq<Octet>, j: nat)
    requires |bytes| == BLOCK && j < 16
    ensures Value(bytes[4 * j..4 * j + 4]) < TWO32 && WordsOf(bytes)[j] == Value(bytes[4 * j..4 * j + 4]) as bv32
  {
    hide Value, Word;
    WordIsValue(bytes, 4 * j);
  }

  /** The sixteen shift amounts. */
  lemma AmountsAre()
    ensures Amount(0, 0) == 7 && Amount(0, 1) == 12 && Amount(0, 2) == 17 && Amount(0, 3) == 22
    ensures Amount(1, 0) == 5 && Amount(1, 1) == 9 && Amount(1, 2) == 14 && Amount(1, 3) == 20
    ensures Amount(2, 0) == 4 && Amount(2, 1) == 11 && Amount(2, 2) == 16 && Amount(2, 3) == 23
    ensures Amount(3, 0) == 6 && Amount(3, 1) == 10 && Amount(3, 2) == 15 && Amount(3, 3) == 21
  {
  }

  /** The words that the operations of the first round read; the others follow below. */
  lemma FirstRoundWords(k: nat)
    requires k < 16
    ensures WordOrder(k) == k
  {
  }

  lemma SecondRoundWords()
    ensures WordOrder(16) == 1 && WordOrder(17) == 6 && WordOrder(18) == 11 && WordOrder(19) == 0
    ensures WordOrder(20) == 5 && WordOrder(21) == 10 && WordOrder(22) == 15 && WordOrder(23) == 4
    ensures WordOrder(24) == 9 && WordOrder(25) == 14 && WordOrder(26) == 3 && WordOrder(27) == 8
    ensures WordOrder(28) == 13 && WordOrder(29) == 2 && WordOrder(30) == 7 && WordOrder(31) == 12
  {
  }

  lemma ThirdRoundWords()
    ensures WordOrder(32) == 5 && WordOrder(33) == 8 && WordOrder(34) == 11 && WordOrder(35) == 14
    ensures WordOrder(36) == 1 && WordOrder(37) == 4 && WordOrder(38) == 7 && WordOrder(39) == 10
    ensures WordOrder(40) == 13 && WordOrder(41) == 0 && WordOrder(42) == 3 && WordOrder(43) == 6
    ensures WordOrder(44) == 9 && WordOrder(45) == 12 && WordOrder(46) == 15 && WordOrder(47) == 2
  {
  }

  lemma FourthRoundWords()
    ensures WordOrder(48) == 0 && WordOrder(49) == 7 && WordOrder(50) == 14 && WordOrder(51) == 5
    ensures WordOrder(52) == 12 && WordOrder(53) == 3 && WordOrder(54) == 10 && WordOrder(55) == 1
    ensures WordOrder(56) == 8 && WordOrder(57) == 15 && WordOrder(58) == 6 && WordOrder(59) == 13
    ensures WordOrder(60) == 4 && WordOrder(61) == 11 && WordOrder(62) == 2 && WordOrder(63) == 9
  {
  }
}
