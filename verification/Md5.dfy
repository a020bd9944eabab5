/** Streaming MD5 against the whole-message definition of sections 3.1 to 3.4 of RFC 1321. */
module Md5 {
  import opened Bytes

  const BLOCK := 64

  datatype Registers = Registers(a: bv32, b: bv32, c: bv32, d: bv32)

  const INIT := Registers(0x67452301, 0xefcdab89, 0x98badcfe, 0x10325476)

  // ---- Step 4: one block ----

  /** The round functions F, G, H and I. */
  function Mix(round: nat, x: bv32, y: bv32, z: bv32): bv32
  {
    if round == 0 then (x & y) | (!x & z)
    else if round == 1 then (x & z) | (y & !z)
    else if round == 2 then x ^ y ^ z
    else y ^ (x | !z)
  }

  function RotateLeft(x: bv32, s: bv32): bv32
    requires 0 < s < 32
  {
    (x << s) | (x >> (32 - s))
  }

  /** The table of sines, four rows of sixteen words: 2^32 times the absolute value of sin(i + 1). */
  const T0: seq<bv32> := [
    0xd76aa478, 0xe8c7b756, 0x242070db, 0xc1bdceee, 0xf57c0faf, 0x4787c62a, 0xa8304613, 0xfd469501,
    0x698098d8, 0x8b44f7af, 0xffff5bb1, 0x895cd7be, 0x6b901122, 0xfd987193, 0xa679438e, 0x49b40821]
  const T1: seq<bv32> := [
    0xf61e2562, 0xc040b340, 0x265e5a51, 0xe9b6c7aa, 0xd62f105d, 0x02441453, 0xd8a1e681, 0xe7d3fbc8,
    0x21e1cde6, 0xc33707d6, 0xf4d50d87, 0x455a14ed, 0xa9e3e905, 0xfcefa3f8, 0x676f02d9, 0x8d2a4c8a]
  const T2: seq<bv32> := [
    0xfffa3942, 0x8771f681, 0x6d9d6122, 0xfde5380c, 0xa4beea44, 0x4bdecfa9, 0xf6bb4b60, 0xbebfbc70,
    0x289b7ec6, 0xeaa127fa, 0xd4ef3085, 0x04881d05, 0xd9d4d039, 0xe6db99e5, 0x1fa27cf8, 0xc4ac5665]
  const T3: seq<bv32> := [
    0xf4292244, 0x432aff97, 0xab9423a7, 0xfc93a039, 0x655b59c3, 0x8f0ccc92, 0xffeff47d, 0x85845dd1,
    0x6fa87e4f, 0xfe2ce6e0, 0xa3014314, 0x4e0811a1, 0xf7537e82, 0xbd3af235, 0x2ad7d2bb, 0xeb86d391]
  const T: seq<bv32> := T0 + T1 + T2 + T3

  /** The word indices and the shift amounts of the sixteen operations of each round. */
  const K0: seq<nat> := [0, 1, 2, 3, 4, 5, 6, 7, 8, 9, 10, 11, 12, 13, 14, 15]
  const K1: seq<nat> := [1, 6, 11, 0, 5, 10, 15, 4, 9, 14, 3, 8, 13, 2, 7, 12]
  const K2: seq<nat> := [5, 8, 11, 14, 1, 4, 7, 10, 13, 0, 3, 6, 9, 12, 15, 2]
  const K3: seq<nat> := [0, 7, 14, 5, 12, 3, 10, 1, 8, 15, 6, 13, 4, 11, 2, 9]
  const K: seq<nat> := K0 + K1 + K2 + K3

  const S0: seq<bv32> := [7, 12, 17, 22, 7, 12, 17, 22, 7, 12, 17, 22, 7, 12, 17, 22]
  const S1: seq<bv32> := [5, 9, 14, 20, 5, 9, 14, 20, 5, 9, 14, 20, 5, 9, 14, 20]
  const S2: seq<bv32> := [4, 11, 16, 23, 4, 11, 16, 23, 4, 11, 16, 23, 4, 11, 16, 23]
  const S3: seq<bv32> := [6, 10, 15, 21, 6, 10, 15, 21, 6, 10, 15, 21, 6, 10, 15, 21]
  const S: seq<bv32> := S0 + S1 + S2 + S3

  /** The word that operation `k` of the standard reads: each round walks the block with its own stride. */
  function WordOrder(k: nat): (r: nat)
    requires k < 64
    ensures r < 16
  {
    var i := k % 16;
    if k < 16 then i else if k < 32 then (1 + 5 * i) % 16 else if k < 48 then (5 + 3 * i) % 16 else (7 * i) % 16
  }

  /** The four shift amounts of each round. */
  function Amount(round: nat, i: nat): (s: bv32)
    requires round < 4 && i < 4
    ensures 0 < s < 32
  {
    if round == 0 then (if i == 0 then 7 else if i == 1 then 12 else if i == 2 then 17 else 22)
    else if round == 1 then (if i == 0 then 5 else if i == 1 then 9 else if i == 2 then 14 else 20)
    else if round == 2 then (if i == 0 then 4 else if i == 1 then 11 else if i == 2 then 16 else 23)
    else (if i == 0 then 6 else if i == 1 then 10 else if i == 2 then 15 else 21)
  }

  lemma RoundTables(i: nat)
    requires i < 16
    ensures |S0| == |S1| == |S2| == |S3| == 16
    ensures K0[i] == i && K1[i] == (1 + 5 * i) % 16 && K2[i] == (5 + 3 * i) % 16 && K3[i] == (7 * i) % 16
    ensures S0[i] == Amount(0, i % 4) && S1[i] == Amount(1, i % 4) && S2[i] == Amount(2, i % 4)
      && S3[i] == Amount(3, i % 4)
  {
    if i < 4 { if i == 0 {} else if i == 1 {} else if i == 2 {} else {} }
    else if i < 8 { if i == 4 {} else if i == 5 {} else if i == 6 {} else {} }
    else if i < 12 { if i == 8 {} else if i == 9 {} else if i == 10 {} else {} }
    else { if i == 12 {} else if i == 13 {} else if i == 14 {} else {} }
  }

  lemma JoinedAt<X>(r0: seq<X>, r1: seq<X>, r2: seq<X>, r3: seq<X>, k: nat)
    requires |r0| == |r1| == |r2| == |r3| == 16 && k < 64
    ensures |r0 + r1 + r2 + r3| == 64
    ensures (r0 + r1 + r2 + r3)[k] == (if k < 16 then r0 else if k < 32 then r1 else if k < 48 then r2 else r3)[k % 16]
  {
  }

  lemma WordTableFollows(k: nat)
    requires k < 64
    ensures |K| == 64 && K[k] == WordOrder(k)
  {
    RoundTables(k % 16);
    hide K0, K1, K2, K3;
    JoinedAt(K0, K1, K2, K3, k);
  }

  lemma Mod4(x: nat, q: nat, r: nat)
    requires x == 4 * q + r && r < 4
    ensures x % 4 == r
  {
  }

  lemma FourOfSixteen(k: nat)
    ensures k % 16 % 4 == k % 4
  {
    var q, m := k / 16, k % 16;
    var i, j := m / 4, m % 4;
    Mod4(k, 4 * q + i, j);
  }

  lemma ShiftTableFollows(k: nat)
    requires k < 64
    ensures |S| == 64 && S[k] == Amount(k / 16, k % 4)
  {
    hide S0, S1, S2, S3, Amount;
    RoundTables(k % 16);
    JoinedAt(S0, S1, S2, S3, k);
    FourOfSixteen(k);
  }

  /** `x` is a block read as sixteen little-endian words. */
  type Block = x: seq<bv32> | |x| == 16 witness seq(16, _ => 0)

  function Transform(a: bv32, b: bv32, c: bv32, d: bv32, round: nat, x: bv32, t: bv32, s: bv32): bv32
    requires 0 < s < 32
  {
    b + RotateLeft(a + Mix(round, b, c, d) + x + t, s)
  }

  /** One operation [abcd k s i]: the new value of its first register. */
  function Op(a: bv32, b: bv32, c: bv32, d: bv32, x: Block, k: nat): bv32
    requires k < 64
  {
    Transform(a, b, c, d, k / 16, x[WordOrder(k)], T[k], Amount(k / 16, k % 4))
  }

  /** A line of the standard's listing: [ABCD ..] [DABC ..] [CDAB ..] [BCDA ..], each using the values just computed. */
  ghost function Line(r: Registers, x: Block, g: nat): Registers
    requires g < 16
  {
    var a := Op(r.a, r.b, r.c, r.d, x, 4 * g);
    var d := Op(r.d, a, r.b, r.c, x, 4 * g + 1);
    var c := Op(r.c, d, a, r.b, x, 4 * g + 2);
    var b := Op(r.b, c, d, a, x, 4 * g + 3);
    Registers(a, b, c, d)
  }

  ghost function Lines(r: Registers, x: Block, g: nat): Registers
    requires g <= 16
  {
    if g == 0 then r else Line(Lines(r, x, g - 1), x, g - 1)
  }

  /** The same operations with fixed roles: the registers rotate instead of the names. */
  ghost function Rotated(r: Registers, x: Block, k: nat): Registers
    requires k <= 64
  {
    if k == 0 then r
    else
      var q := Rotated(r, x, k - 1);
      Registers(q.d, Op(q.a, q.b, q.c, q.d, x, k - 1), q.b, q.c)
  }

  lemma RotatedStart(r: Registers, x: Block)
    ensures Rotated(r, x, 0) == r
  {
  }

  lemma {:induction false} RotatedIsLines(r: Registers, x: Block, g: nat)
    requires g <= 16
    ensures Rotated(r, x, 4 * g) == Lines(r, x, g)
  {
    hide Op;
    if g > 0 {
      RotatedIsLines(r, x, g - 1);
      var q := Rotated(r, x, 4 * g - 4);
      var q1 := Rotated(r, x, 4 * g - 3);
      var q2 := Rotated(r, x, 4 * g - 2);
      var q3 := Rotated(r, x, 4 * g - 1);
      assert q1 == Registers(q.d, Op(q.a, q.b, q.c, q.d, x, 4 * g - 4), q.b, q.c);
      assert q2 == Registers(q1.d, Op(q1.a, q1.b, q1.c, q1.d, x, 4 * g - 3), q1.b, q1.c);
      assert q3 == Registers(q2.d, Op(q2.a, q2.b, q2.c, q2.d, x, 4 * g - 2), q2.b, q2.c);
    }
  }

  function Perm(idx: nat, k: nat): (r: nat)
    ensures r < 4
  {
    (idx + k * 3) % 4
  }

  lemma PermIs(idx: nat, k: nat, m: nat)
    requires idx < 4 && m == k * 3 % 4
    ensures Perm(idx, k) == if idx + m < 4 then idx + m else idx + m - 4
  {
    var q := k * 3 / 4;
    if idx + m < 4 {
      Mod4(idx + k * 3, q, idx + m);
    } else {
      Mod4(idx + k * 3, q + 1, idx + m - 4);
    }
  }

  lemma PermTurns(k: nat)
    ensures Perm(0, k + 1) == Perm(3, k) && Perm(1, k + 1) == Perm(0, k)
    ensures Perm(2, k + 1) == Perm(1, k) && Perm(3, k + 1) == Perm(2, k)
    ensures Perm(0, k) != Perm(1, k) && Perm(0, k) != Perm(2, k) && Perm(0, k) != Perm(3, k)
  {
    hide Perm;
    var m := k * 3 % 4;
    var m1 := (k + 1) * 3 % 4;
    assert m1 == if m == 0 then 3 else m - 1 by {
      var q := k * 3 / 4;
      assert (k + 1) * 3 == 4 * q + (m + 3);
    }
    PermIs(0, k, m); PermIs(1, k, m); PermIs(2, k, m); PermIs(3, k, m);
    PermIs(0, k + 1, m1); PermIs(1, k + 1, m1); PermIs(2, k + 1, m1); PermIs(3, k + 1, m1);
  }

  /** The registers at step `k`, in the order the operation takes them. */
  ghost function InOrder(s: seq<bv32>, k: nat): Registers
    requires |s| == 4
  {
    Registers(s[Perm(0, k)], s[Perm(1, k)], s[Perm(2, k)], s[Perm(3, k)])
  }

  lemma RotateStep(s: seq<bv32>, r: Registers, x: Block, k: nat)
    requires |s| == 4 && k < 64 && InOrder(s, k) == Rotated(r, x, k)
    ensures InOrder(s[Perm(0, k) := Op(s[Perm(0, k)], s[Perm(1, k)], s[Perm(2, k)], s[Perm(3, k)], x, k)], k + 1)
      == Rotated(r, x, k + 1)
  {
    PermTurns(k);
    hide Op, Perm;
  }

  /** The value the code computes from its tables. */
  lemma TableOp(a: bv32, b: bv32, c: bv32, d: bv32, x: Block, k: nat)
    requires k < 64
    ensures |K| == |S| == 64 && K[k] < 16 && 0 < S[k] < 32
    ensures Op(a, b, c, d, x, k) == Transform(a, b, c, d, k / 16, x[K[k]], T[k], S[k])
  {
    WordTableFollows(k);
    ShiftTableFollows(k);
    hide K, S, WordOrder, Amount, Transform;
  }

  function Add32(x: bv32, y: bv32): bv32 { x + y }

  ghost function Sum(r: Registers, q: Registers): Registers
  {
    Registers(Add32(r.a, q.a), Add32(r.b, q.b), Add32(r.c, q.c), Add32(r.d, q.d))
  }

  /** Four bytes, low order first. */
  function Word(bytes: seq<Octet>, at: nat): bv32
    requires at + 4 <= |bytes|
  {
    var b0: int, b1: int, b2: int, b3: int := bytes[at], bytes[at + 1], bytes[at + 2], bytes[at + 3];
    (b0 + 0x100 * b1 + 0x1_0000 * b2 + 0x100_0000 * b3) as bv32
  }

  function WordsOf(bytes: seq<Octet>): Block
    requires |bytes| == BLOCK
  {
    seq(16, j requires 0 <= j < 16 => Word(bytes, 4 * j))
  }

  /** Step 4 of the standard on one block. */
  ghost function Compress(r: Registers, bytes: seq<Octet>): Registers
    requires |bytes| == BLOCK
  {
    Sum(Lines(r, WordsOf(bytes), 16), r)
  }

  // ---- The whole message ----

  /** All complete blocks of `bytes`, first block first. */
  ghost function Absorb(r: Registers, bytes: seq<Octet>): Registers
    decreases |bytes|
  {
    if |bytes| < BLOCK then r else Absorb(Compress(r, bytes[..BLOCK]), bytes[BLOCK..])
  }

  lemma {:induction false} AbsorbMore(r: Registers, bytes: seq<Octet>, block: seq<Octet>)
    requires |bytes| % BLOCK == 0 && |block| == BLOCK
    ensures Absorb(r, bytes + block) == Compress(Absorb(r, bytes), block)
    decreases |bytes|
  {
    hide Compress;
    var all := bytes + block;
    if bytes == [] {
      assert all == block && block[..BLOCK] == block && block[BLOCK..] == [];
    } else {
      assert |bytes| >= BLOCK;
      assert all[..BLOCK] == bytes[..BLOCK] && all[BLOCK..] == bytes[BLOCK..] + block;
      AbsorbMore(Compress(r, bytes[..BLOCK]), bytes[BLOCK..], block);
    }
  }

  function Zeros(n: nat): (z: seq<Octet>)
    ensures |z| == n && forall i :: 0 <= i < n ==> z[i] == 0
  {
    seq(n, _ => 0)
  }

  /** Steps 1 and 2: a 1 bit, the fewest 0 bits that leave room for the length, then the length in bits modulo 2^64. */
  ghost function Padded(m: seq<Octet>): seq<Octet>
  {
    m + Tail(|m|)
  }

  ghost function Tail(n: nat): seq<Octet>
  {
    [0x80] + Zeros((55 - n) % BLOCK) + LittleEndian(8 * n % TWO64, 8)
  }

  ghost function Digest(m: seq<Octet>): Registers
  {
    Absorb(INIT, Padded(m))
  }

  lemma WholeBlocks(k: int)
    ensures BLOCK * k % BLOCK == 0
  {
  }

  /** The padded message is a whole number of blocks and no shorter padding reaches one. */
  lemma PaddedFits(m: seq<Octet>)
    ensures |Padded(m)| % BLOCK == 0
    ensures |m| + 9 <= |Padded(m)| < |m| + 9 + BLOCK
  {
    hide LittleEndian, Zeros;
    var n := |m|;
    var q, z := (55 - n) / BLOCK, (55 - n) % BLOCK;
    assert |Padded(m)| == n + 9 + z;
    WholeBlocks(1 - q);
  }

  ghost function InPlace(s: seq<bv32>): Registers
    requires |s| == 4
  {
    Registers(s[0], s[1], s[2], s[3])
  }

  lemma NextBlock(whole: seq<Octet>, bytes: seq<Octet>, i: nat)
    requires |whole| % BLOCK == 0 && (i + 1) * BLOCK <= |bytes|
    ensures Absorb(INIT, whole + bytes[..(i + 1) * BLOCK])
      == Compress(Absorb(INIT, whole + bytes[..i * BLOCK]), bytes[i * BLOCK..i * BLOCK + BLOCK])
  {
    hide Absorb, Compress;
    var done, next := bytes[..i * BLOCK], bytes[i * BLOCK..i * BLOCK + BLOCK];
    assert whole + bytes[..(i + 1) * BLOCK] == whole + done + next;
    assert |whole + done| == BLOCK * (|whole| / BLOCK + i);
    AbsorbMore(INIT, whole + done, next);
  }

  lemma TailAfter(fed: seq<Octet>, full: nat, kept: seq<Octet>, tail: seq<Octet>)
    requires full <= |fed| && kept == fed[full..]
    ensures fed[..full] + (kept + tail) == fed + tail
  {
  }

  /** Completing the block in the buffer compresses one more block. */
  lemma BlockFilled(fed: seq<Octet>, full: nat, kept: seq<Octet>, bytes: seq<Octet>)
    requires full <= |fed| && kept == fed[full..] && full % BLOCK == 0 && |kept| + |bytes| == BLOCK
    ensures Absorb(INIT, (fed + bytes)[..|fed + bytes|]) == Compress(Absorb(INIT, fed[..full]), kept + bytes)
    ensures |fed + bytes| == full + BLOCK && (full + BLOCK) % BLOCK == 0
  {
    hide Absorb, Compress;
    TailAfter(fed, full, kept, bytes);
    AbsorbMore(INIT, fed[..full], kept + bytes);
    assert (fed + bytes)[..|fed + bytes|] == fed + bytes;
  }

  lemma TurnsComplete(s: seq<bv32>)
    requires |s| == 4
    ensures InOrder(s, 0) == InPlace(s) && InOrder(s, 64) == InPlace(s)
  {
  }

  /** How many bytes `finish` appends before the length field, the 0x80 included. */
  function PadFor(head: nat): (pad: nat)
    requires head < BLOCK
    ensures pad >= 1
  {
    var pad := BLOCK - 8 - head;
    if pad <= 0 then pad + BLOCK else pad
  }

  lemma TailIs(n: nat, full: nat, head: nat)
    requires n == full + head && full % BLOCK == 0 && head < BLOCK
    ensures Tail(n) == [0x80] + Zeros(PadFor(head) - 1) + LittleEndian(8 * n % TWO64, 8)
    ensures head + PadFor(head) + 8 == if head < BLOCK - 8 then BLOCK else 2 * BLOCK
  {
    var q := full / BLOCK;
    if head < BLOCK - 8 {
      assert 55 - n == BLOCK * -q + (55 - head);
    } else {
      assert 55 - n == BLOCK * (-q - 1) + (119 - head);
    }
    assert (55 - n) % BLOCK == PadFor(head) - 1;
  }

  lemma BitLength(n: nat)
    ensures n % TWO64 * 8 % TWO64 == 8 * n % TWO64
  {
    var q, r := n / TWO64, n % TWO64;
    assert 8 * n == TWO64 * (8 * q) + 8 * r;
    ShiftMod(8 * r, 8 * q);
  }

  lemma ShiftMod(r: nat, q: nat)
    ensures (TWO64 * q + r) % TWO64 == r % TWO64
  {
    var p, s := r / TWO64, r % TWO64;
    assert TWO64 * q + r == TWO64 * (q + p) + s;
    UniqueMod(TWO64 * q + r, q + p, s);
  }

  lemma UniqueMod(x: nat, q: nat, s: nat)
    requires x == TWO64 * q + s && s < TWO64
    ensures x % TWO64 == s
  {
    var p, t := x / TWO64, x % TWO64;
    assert TWO64 * (p - q) == s - t;
  }

  lemma LengthGrows(n: nat, k: nat)
    ensures (n % TWO64 + k) % TWO64 == (n + k) % TWO64
  {
    var q, r := n / TWO64, n % TWO64;
    assert n + k == TWO64 * q + (r + k);
    ShiftMod(r + k, q);
  }

  // ---- The 32-bit count of processed bytes ----

  /** The number of bytes one call can take with `head` bytes waiting in the buffer. */
  ghost function Bound(head: nat): nat
    requires head < BLOCK
  {
    TWO32 + if head == 0 then 0 else BLOCK - head
  }

  /** The count after `k` turns of the loop. */
  ghost function Counted(head: nat, k: nat): nat
    requires head < BLOCK
  {
    (BLOCK - head + BLOCK * k) % TWO32
  }

  lemma CountedBelow(head: nat, k: nat)
    requires head < BLOCK
    ensures Counted(head, k) + BLOCK <= Bound(head)
  {
    var x := BLOCK - head + BLOCK * k;
    var q := x / TWO32;
    var turns := 1 + k - 0x400_0000 * q;
    assert Counted(head, k) == BLOCK * turns - head;
    assert BLOCK * 0x400_0000 == TWO32;
  }

  /** The loop over whole blocks comes to its end exactly below the bound; from there on its condition always holds. */
  lemma LoopEnds(head: nat, length: nat)
    requires head < BLOCK <= head + length
    ensures length < Bound(head) <==> exists k: nat :: length - Counted(head, k) < BLOCK
  {
    if length < Bound(head) {
      var k := (head + length) / BLOCK - 1;
      var x := BLOCK - head + BLOCK * k;
      assert x <= length < x + BLOCK;
      assert x < TWO32;
      assert length - Counted(head, k) < BLOCK;
    } else {
      forall k: nat
        ensures length - Counted(head, k) >= BLOCK
      {
        CountedBelow(head, k);
      }
    }
  }

  lemma NoTurn(head: nat, length: nat, k: nat, processed: nat)
    requires head < BLOCK && length < Bound(head) && processed == BLOCK - head + BLOCK * k
      && length - processed >= BLOCK
    ensures (processed + BLOCK) % TWO32 == processed + BLOCK
  {
    assert BLOCK * 0x400_0000 == TWO32;
    assert processed + BLOCK == BLOCK * (k + 2) - head;
    assert k + 2 <= 0x400_0000;
  }

  lemma Difference32(length: nat, processed: nat)
    requires processed <= length < processed + BLOCK
    ensures (length % TWO32 - processed) % TWO32 == length - processed
  {
    var q := length / TWO32;
    assert length % TWO32 - processed == -q * TWO32 + (length - processed);
  }

  /**
   * The streaming state. `fed` is everything processed so far; it is what the other fields stand for.
   */
  class Hasher {
    const buffer: array<Octet>
    var state: seq<bv32>
    var length: nat
    var head: nat
    var finished: bool
    ghost var fed: seq<Octet>

    ghost predicate Sized()
      reads this
    {
      buffer.Length == 2 * BLOCK && |state| == 4 && head < BLOCK
    }

    /** The bytes already compressed. */
    ghost function Full(): nat
      reads this
    {
      if head <= |fed| then |fed| - head else 0
    }

    ghost predicate Valid()
      reads this, buffer
    {
      && Sized()
      && head <= |fed| && Full() % BLOCK == 0
      && length == Full() % TWO64
      && InPlace(state) == Absorb(INIT, fed[..Full()])
      && buffer[..head] == fed[Full()..]
    }

    /** What waits in the buffer is what is left of the input after its whole blocks. */
    lemma HeadIs()
      requires Valid()
      ensures head < BLOCK && head == |fed| % BLOCK
    {
      hide Absorb;
    }

    lemma ValidSized()
      requires Valid()
      ensures Sized()
    {
    }

    constructor ()
      ensures Valid() && !finished && fed == [] && fresh(buffer)
    {
      buffer := new Octet[2 * BLOCK](_ => 0);
      state := [0x67452301, 0xefcdab89, 0x98badcfe, 0x10325476];
      length, head, finished, fed := 0, 0, false, [];
    }

    method Write(at: nat, bytes: seq<Octet>)
      requires at + |bytes| <= buffer.Length
      modifies buffer
      ensures buffer[..] == old(buffer[..at]) + bytes + old(buffer[at + |bytes|..])
      ensures buffer[..at] == old(buffer[..at]) && buffer[..at + |bytes|] == old(buffer[..at]) + bytes
    {
      forall i | 0 <= i < |bytes| { buffer[at + i] := bytes[i]; }
    }

    /** 64 operations on the state in place, the roles of its four entries rotating. */
    method Rounds(x: Block)
      requires |state| == 4
      modifies this`state
      ensures |state| == 4
      ensures InPlace(state) == Lines(old(InPlace(state)), x, 16)
    {
      hide Op, Lines, Rotated, InOrder, InPlace, K, S, Perm, Transform;
      ghost var start := InPlace(state);
      assert InOrder(state, 0) == Rotated(start, x, 0) by {
        TurnsComplete(state);
        RotatedStart(start, x);
      }
      for k := 0 to 64
        invariant |state| == 4
        invariant InOrder(state, k) == Rotated(start, x, k)
      {
        TableOp(state[Perm(0, k)], state[Perm(1, k)], state[Perm(2, k)], state[Perm(3, k)], x, k);
        RotateStep(state, start, x, k);
        var v := Transform(state[Perm(0, k)], state[Perm(1, k)], state[Perm(2, k)], state[Perm(3, k)],
          k / 16, x[K[k]], T[k], S[k]);
        state := state[Perm(0, k) := v];
      }
      TurnsComplete(state);
      RotatedIsLines(start, x, 16);
    }

    /** Compresses the block at `offset` into the state. */
    method ProcessBlock(offset: nat)
      requires buffer.Length == 2 * BLOCK && |state| == 4 && offset < 2
      modifies this`state, this`length, this`head
      ensures |state| == 4 && head == 0 && length == (old(length) + BLOCK) % TWO64
      ensures InPlace(state) == Compress(old(InPlace(state)), buffer[offset * BLOCK..offset * BLOCK + BLOCK])
    {
      hide Lines, WordsOf, Sum, InPlace;
      length := (length + BLOCK) % TWO64;
      var saved := state;
      var block := buffer[offset * BLOCK..offset * BLOCK + BLOCK];
      Rounds(WordsOf(block));
      AddTo(saved);
      head := 0;
    }

    method AddTo(saved: seq<bv32>)
      requires |state| == |saved| == 4
      modifies this`state
      ensures |state| == 4 && InPlace(state) == Sum(old(InPlace(state)), InPlace(saved))
    {
      hide Add32;
      ghost var mixed := state;
      for i := 0 to 4
        invariant |state| == 4
        invariant forall j :: 0 <= j < i ==> state[j] == Add32(mixed[j], saved[j])
        invariant forall j :: i <= j < 4 ==> state[j] == mixed[j]
      {
        state := state[i := Add32(state[i], saved[i])];
      }
    }

    /** Stores bytes that do not complete a block. */
    method Stash(bytes: seq<Octet>, newHead: nat)
      requires Valid() && newHead == head + |bytes| < BLOCK
      modifies this`head, this`fed, buffer
      ensures Valid() && fed == old(fed) + bytes && head == old(head) + |bytes|
    {
      hide Absorb;
      Write(head, bytes);
      ghost var full := Full();
      fed := fed + bytes;
      assert fed[..full] == old(fed)[..full];
      head := newHead;
      assert buffer[..head] == old(buffer[..head]) + bytes;
    }

    /** Completes the block in the buffer and compresses it. */
    method FillBlock(bytes: seq<Octet>)
      requires Valid() && head + |bytes| == BLOCK
      modifies this`head, this`fed, this`length, this`state, buffer
      ensures Valid() && fed == old(fed) + bytes && head == 0
    {
      hide Absorb, Compress, InPlace;
      ghost var full := Full();
      Write(head, bytes);
      ghost var block := buffer[0 * BLOCK..0 * BLOCK + BLOCK];
      assert block == old(buffer[..head]) + bytes;
      ProcessBlock(0);
      BlockFilled(fed, full, old(buffer[..head]), bytes);
      LengthGrows(full, BLOCK);
      fed := fed + bytes;
    }

    /** Takes any input for which the 32-bit count of processed bytes does not come round (`LoopEnds`). */
    method Process(input: seq<Octet>)
      requires Valid() && !finished && |input| < Bound(head)
      modifies this`head, this`fed, this`length, this`state, buffer
      ensures Valid() && !finished && fed == old(fed) + input
    {
      hide Valid, Full, Absorb, Bound;
      ghost var before := fed;
      assert Sized() by { ValidSized(); }
      if head + |input| < BLOCK {
        Stash(input, head + |input|);
        return;
      }
      ghost var h, k := head, 0;
      var processed := BLOCK - head;
      FillBlock(input[..processed]);
      while |input| - processed >= BLOCK
        invariant processed <= |input| && Valid() && head == 0 && processed == BLOCK - h + BLOCK * k
        invariant fed == before + input[..processed]
        decreases |input| - processed
      {
        var block := input[processed..processed + BLOCK];
        FillBlock(block);
        assert input[..processed] + block == input[..processed + BLOCK];
        NoTurn(h, |input|, k, processed);
        processed, k := (processed + BLOCK) % TWO32, k + 1;
      }
      if processed != |input| {
        Difference32(|input|, processed);
        Stash(input[processed..], (|input| % TWO32 - processed) % TWO32);
        assert input[..processed] + input[processed..] == input;
      } else {
        assert input[..processed] == input;
      }
    }

    /** Writes the padding and the length field behind the bytes still in the buffer. */
    method Pad() returns (blocks: nat)
      requires Valid()
      modifies this`head, this`length, buffer
      ensures 1 <= blocks <= 2 && buffer.Length == 2 * BLOCK
      ensures old(fed[..Full()]) + buffer[..blocks * BLOCK] == Padded(fed)
    {
      hide Absorb;
      hide LittleEndian, Tail, PadFor;
      ghost var full := Full();
      ghost var kept := buffer[..head];
      LengthGrows(full, head);
      length := (length + head) % TWO64;
      TailIs(|fed|, full, head);
      BitLength(|fed|);
      TailAfter(fed, full, kept, Tail(|fed|));
      var pad := PadFor(head);
      WriteTail(pad, length * 8 % TWO64);
      head := head + pad + 8;
      blocks := head / BLOCK;
      assert blocks * BLOCK == head;
    }

    /** 0x80, zeros and the length field, written behind the head. */
    method WriteTail(pad: nat, lengthBits: nat)
      requires 1 <= pad && head + pad + 8 <= buffer.Length
      modifies buffer
      ensures buffer[..head + pad + 8] == old(buffer[..head]) + ([0x80] + Zeros(pad - 1) + LittleEndian(lengthBits, 8))
    {
      hide LittleEndian, Zeros;
      ghost var kept := buffer[..head];
      Write(head, [0x80]);
      if pad > 1 {
        Write(head + 1, Zeros(pad - 1));
      }
      assert buffer[..head + pad] == kept + [0x80] + Zeros(pad - 1);
      Write(head + pad, LittleEndian(lengthBits, 8));
    }

    /** The digest of everything processed. */
    method Finish()
      requires Valid() && !finished
      modifies this`head, this`length, this`state, this`finished, buffer
      ensures finished && |state| == 4 && fed == old(fed)
      ensures InPlace(state) == Digest(fed)
    {
      hide Absorb, Compress, InPlace, Padded;
      ghost var whole := fed[..Full()];
      var blocks := Pad();
      ghost var bytes := buffer[..blocks * BLOCK];
      assert bytes[..0] == [] && whole + [] == whole;
      for i := 0 to blocks
        invariant |state| == 4 && InPlace(state) == Absorb(INIT, whole + bytes[..i * BLOCK])
        invariant fed == old(fed) && buffer[..blocks * BLOCK] == bytes
      {
        NextBlock(whole, bytes, i);
        ProcessBlock(i);
        assert buffer[i * BLOCK..i * BLOCK + BLOCK] == bytes[i * BLOCK..i * BLOCK + BLOCK];
      }
      assert bytes[..blocks * BLOCK] == bytes;
      finished := true;
    }
  }

  ghost function Concat(chunks: seq<seq<Octet>>): seq<Octet>
  {
    if chunks == [] then [] else Concat(chunks[..|chunks| - 1]) + chunks[|chunks| - 1]
  }

  /** However the message is cut into chunks, the digest is the standard's digest of the whole message. A chunk only
      has to be one that `Process` comes to an end with, as every chunk below 2^32 bytes is. */
  method HashChunks(chunks: seq<seq<Octet>>) returns (digest: seq<bv32>)
    requires forall i :: 0 <= i < |chunks| ==> |chunks[i]| < Bound(|Concat(chunks[..i])| % BLOCK)
    ensures |digest| == 4 && InPlace(digest) == Digest(Concat(chunks))
  {
    hide Digest, InPlace, Absorb, Hasher.Valid, Hasher.Full, Bound;
    var h := new Hasher();
    for i := 0 to |chunks|
      invariant h.Valid() && !h.finished && fresh(h) && fresh(h.buffer)
      invariant h.fed == Concat(chunks[..i])
    {
      assert chunks[..i + 1][..i] == chunks[..i];
      h.HeadIs();
      h.Process(chunks[i]);
    }
    assert chunks[..|chunks|] == chunks;
    h.Finish();
    digest := h.state;
  }
}
