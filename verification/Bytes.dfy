/** Unsigned integers as little-endian bytes. */
module Bytes {

  type Octet = x: int | 0 <= x < 256

  const TWO32 := 0x1_0000_0000
  const TWO64 := 0x1_0000_0000_0000_0000

  ghost function Limit(n: nat): (r: nat)
    ensures r > 0
  {
    if n == 0 then 1 else 256 * Limit(n - 1)
  }

  /** `n` bytes of `v`, low order first; what does not fit is cut off. */
  function LittleEndian(v: nat, n: nat): (bs: seq<Octet>)
    ensures |bs| == n
  {
    if n == 0 then [] else [v % 256] + LittleEndian(v / 256, n - 1)
  }

  function Value(bs: seq<Octet>): nat
  {
    if bs == [] then 0 else bs[0] + 256 * Value(bs[1..])
  }

  lemma {:induction false} ValueOfBytes(v: nat, n: nat)
    requires v < Limit(n)
    ensures Value(LittleEndian(v, n)) == v
  {
    if n > 0 {
      assert LittleEndian(v, n)[1..] == LittleEndian(v / 256, n - 1);
      ValueOfBytes(v / 256, n - 1);
    }
  }

  lemma DivideTwice(v: nat, b: nat)
    requires b > 0
    ensures v / 256 / b == v / (256 * b)
  {
    var q, r := v / 256, v % 256;
    var z, m := q / b, q % b;
    var y, k := v / (256 * b), v % (256 * b);
    assert q == b * z + m && v == 256 * q + r;
    assert v == (256 * b) * z + (256 * m + r) && 256 * m + r < 256 * b;
    assert v == (256 * b) * y + k;
    assert (256 * b) * (y - z) == 256 * m + r - k;
    assert y - z >= 1 ==> (256 * b) * (y - z) >= 256 * b;
    assert y - z <= -1 ==> (256 * b) * (y - z) <= -(256 * b);
  }

  /** Byte `i` is the digit of weight 256^i. */
  lemma {:induction false} ByteAt(v: nat, n: nat, i: nat)
    requires i < n
    ensures LittleEndian(v, n)[i] == v / Limit(i) % 256
    decreases n
  {
    if i > 0 {
      ByteAt(v / 256, n - 1, i - 1);
      DivideTwice(v, Limit(i - 1));
    }
  }

  lemma Limits()
    ensures Limit(2) == 0x1_0000 && Limit(4) == 0x1_0000_0000 && Limit(8) == 0x1_0000_0000_0000_0000
  {
    assert Limit(2) == 256 * Limit(1) && Limit(4) == 256 * Limit(3) && Limit(3) == 256 * Limit(2);
    assert Limit(6) == 256 * Limit(5) && Limit(5) == 256 * Limit(4) && Limit(8) == 256 * Limit(7)
      && Limit(7) == 256 * Limit(6);
  }
}
