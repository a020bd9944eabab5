/** Base64 with a 32-bit accumulator, against the grouping and padding of section 4 of RFC 4648. */
module Base64 {
  import opened Bytes
  import opened Basics

  type Sextet = x: int | 0 <= x < 64

  // ---- The alphabet ----

  /** The character for a 6-bit value. */
  function Symbol(v: Sextet): char
  {
    if v < 26 then ('A' as int + v) as char
    else if v < 52 then ('a' as int + v - 26) as char
    else if v < 62 then ('0' as int + v - 52) as char
    else if v == 62 then '+' else '/'
  }

  /** The 6-bit value of a character, or -1. */
  function SymbolValue(c: char): (v: int)
    ensures -1 <= v < 64
  {
    if 'A' <= c <= 'Z' then c as int - 'A' as int
    else if 'a' <= c <= 'z' then c as int - 'a' as int + 26
    else if '0' <= c <= '9' then c as int - '0' as int + 52
    else if c == '+' then 62 else if c == '/' then 63 else -1
  }

  lemma AlphabetInverse(v: Sextet)
    ensures SymbolValue(Symbol(v)) == v
  {
  }

  // Table 1 of the standard.

  const UPPER := "ABCDEFGHIJKLMNOPQRSTUVWXYZ"
  const LOWER := "abcdefghijklmnopqrstuvwxyz"
  const DIGITS := "0123456789"
  const ALPHABET := UPPER + LOWER + DIGITS + "+/"

  lemma Rows(i: nat)
    ensures |UPPER| == |LOWER| == 26 && |DIGITS| == 10
    ensures i < 26 ==> UPPER[i] == ('A' as int + i) as char && LOWER[i] == ('a' as int + i) as char
    ensures i < 10 ==> DIGITS[i] == ('0' as int + i) as char
  {
    if i < 26 {
      UpperRow(i);
      LowerRow(i);
    }
  }

  lemma UpperRow(i: nat)
    requires i < 26
    ensures |UPPER| == 26 && UPPER[i] == ('A' as int + i) as char
  {
  }

  lemma LowerRow(i: nat)
    requires i < 26
    ensures |LOWER| == 26 && LOWER[i] == ('a' as int + i) as char
  {
  }

  lemma AlphabetAt(v: Sextet)
    ensures |ALPHABET| == 64
    ensures ALPHABET[v] == if v < 26 then UPPER[v] else if v < 52 then LOWER[v - 26]
                           else if v < 62 then DIGITS[v - 52] else "+/"[v - 62]
  {
    Rows(0);
    hide UPPER, LOWER, DIGITS;
  }

  /** The character for a value is the one the standard's table lists. */
  lemma SymbolIsListed(v: Sextet)
    ensures |ALPHABET| == 64 && Symbol(v) == ALPHABET[v]
  {
    AlphabetAt(v);
    Rows(if v < 26 then v else if v < 52 then v - 26 else if v < 62 then v - 52 else 0);
    hide UPPER, LOWER, DIGITS, ALPHABET;
  }

  lemma SymbolBack(c: char)
    ensures SymbolValue(c) != -1 ==> Symbol(SymbolValue(c)) == c
  {
  }

  /** A character has a value exactly when the table lists it, and then it is its place there. */
  lemma ValueIsPlace(c: char, v: Sextet)
    ensures |ALPHABET| == 64
    ensures SymbolValue(c) == v <==> ALPHABET[v] == c
    ensures SymbolValue(c) == -1 <==> c !in ALPHABET
  {
    SymbolIsListed(v);
    AlphabetInverse(v);
    SymbolBack(c);
    if c in ALPHABET {
      var i :| 0 <= i < |ALPHABET| && ALPHABET[i] == c;
      SymbolIsListed(i);
      AlphabetInverse(i);
    } else if SymbolValue(c) != -1 {
      SymbolIsListed(SymbolValue(c));
    }
    hide Symbol, SymbolValue, ALPHABET;
  }

  // ---- The standard's grouping ----

  /** Three bytes make four characters; one or two bytes left over are padded. */
  ghost function Standard(data: seq<Octet>): string
  {
    if data == [] then ""
    else if |data| == 1 then Group1(data[0]) + "=="
    else if |data| == 2 then Group2(data[0], data[1]) + "="
    else Group3(data[0], data[1], data[2]) + Standard(data[3..])
  }

  ghost function Top(a: Octet): Sextet { a / 4 }

  ghost function Join1(a: Octet, b: Octet): Sextet { a % 4 * 16 + b / 16 }

  ghost function Join2(b: Octet, c: Octet): Sextet { b % 16 * 4 + c / 64 }

  ghost function Bottom(c: Octet): Sextet { c % 64 }

  ghost function Group1(a: Octet): (r: string) ensures |r| == 2 { [Symbol(Top(a)), Symbol(Join1(a, 0))] }

  ghost function Group2(a: Octet, b: Octet): (r: string)
    ensures |r| == 3
  {
    [Symbol(Top(a)), Symbol(Join1(a, b)), Symbol(Join2(b, 0))]
  }

  ghost function Group3(a: Octet, b: Octet, c: Octet): (r: string)
    ensures |r| == 4
  {
    [Symbol(Top(a)), Symbol(Join1(a, b)), Symbol(Join2(b, c)), Symbol(Bottom(c))]
  }

  // ---- Encoding ----

  /** The accumulator after one more byte: older bits fall off the top of the word. */
  function Feed8(val: int, b: Octet): int { (val * 256 + b) % TWO32 }

  lemma Split4(x: int, q: int, r: int)
    requires x == 4 * q + r && 0 <= r < 4
    ensures x / 4 == q && x % 4 == r
  {
  }

  lemma Split16(x: int, q: int, r: int)
    requires x == 16 * q + r && 0 <= r < 16
    ensures x / 16 == q && x % 16 == r
  {
  }

  lemma Split64(x: int, q: int, r: int)
    requires x == 64 * q + r && 0 <= r < 64
    ensures x / 64 == q && x % 64 == r
  {
  }

  lemma Split256(x: int, q: int, r: int)
    requires x == 256 * q + r && 0 <= r < 256
    ensures x / 256 == q && x % 256 == r
  {
  }

  /** Reducing to a word takes away a multiple of its size. */
  lemma Wrap(x: int) returns (q: int)
    ensures x % TWO32 == x - q * TWO32
  {
    q := x / TWO32;
  }

  /** Bits of the accumulator after a byte: what the wrap-around takes away lies above them. */
  lemma Feed8Bits(val: int, b: Octet)
    requires 0 <= val < TWO32
    ensures var w := Feed8(val, b);
      && 0 <= w < TWO32 && w % 4 == b % 4 && w % 16 == b % 16 && w % 64 == b % 64
      && (w / 4) % 64 == b / 4
      && (w / 16) % 64 == val % 4 * 16 + b / 16
      && (w / 64) % 64 == val % 16 * 4 + b / 64
  {
    var q := Wrap(val * 256 + b);
    var w := Feed8(val, b);
    assert w == val * 256 + b - q * TWO32;
    hide Feed8;
    var b4, b16, b64 := b / 4, b / 16, b / 64;
    var v4, v16 := val / 4, val / 16;
    Split4(w, val * 64 - q * 0x4000_0000 + b4, b % 4);
    Split64(w / 4, val - q * 0x100_0000, b4);
    Split16(w, val * 16 - q * 0x1000_0000 + b16, b % 16);
    Split64(w / 16, v4 - q * 0x40_0000, val % 4 * 16 + b16);
    Split64(w, val * 4 - q * 0x400_0000 + b64, b % 64);
    Split64(w / 64, v16 - q * 0x10_0000, val % 16 * 4 + b64);
  }

  lemma LastBits(val: int)
    requires 0 <= val < TWO32
    ensures (val * 256 % TWO32 / 16) % 64 == val % 4 * 16 && (val * 256 % TWO32 / 64) % 64 == val % 16 * 4
  {
    Feed8Bits(val, 0);
  }

  /** `(val >> shift) & 0x3F` */
  function Bits6(val: nat, shift: nat): Sextet
  {
    Pow2Positive(shift);
    (val / Pow2(shift)) % 64
  }

  /** What has been written after the bytes of a group so far, while its last bits wait in the accumulator. */
  ghost function Partial(group: seq<Octet>): string
    requires |group| < 3
  {
    if group == [] then "" else if |group| == 1 then [Symbol(Top(group[0]))]
    else [Symbol(Top(group[0])), Symbol(Join1(group[0], group[1]))]
  }

  /** The accumulator holds the bits of the group that have not been written. */
  ghost predicate Holds(val: int, valb: int, group: seq<Octet>)
  {
    && 0 <= val < TWO32 && |group| < 3 && valb == 2 * |group| - 6
    && (|group| == 1 ==> val % 4 == group[0] % 4) && (|group| == 2 ==> val % 16 == group[1] % 16)
  }

  ghost predicate Whole(n: nat) { n % 3 == 0 }

  lemma {:induction false} StandardAppend(a: seq<Octet>, b: seq<Octet>)
    requires Whole(|a|)
    ensures Standard(a + b) == Standard(a) + Standard(b)
    decreases |a|
  {
    hide Group1, Group2, Group3;
    if a == [] {
      assert a + b == b;
    } else {
      StandardAppend(a[3..], b);
      assert (a + b)[3..] == a[3..] + b;
      assert Standard(a + b) == Group3(a[0], a[1], a[2]) + Standard(a[3..] + b);
    }
  }

  lemma {:induction false} StandardLength(a: seq<Octet>)
    ensures |Standard(a)| % 4 == 0
    decreases |a|
  {
    hide Group1, Group2, Group3;
    if |a| > 2 { StandardLength(a[3..]); }
  }

  /** The characters one more byte adds to the output. */
  ghost function Emitted(val: nat, valb: int): string
    requires valb >= 0
  {
    [Symbol(Bits6(val, valb))] + (if valb >= 6 then [Symbol(Bits6(val, valb - 6))] else "")
  }

  lemma BitsAt(val: nat)
    ensures Bits6(val, 0) == val % 64 && Bits6(val, 2) == (val / 4) % 64
    ensures Bits6(val, 4) == (val / 16) % 64 && Bits6(val, 6) == (val / 64) % 64
  {
    assert Pow2(0) == 1 && Pow2(2) == 4 && Pow2(4) == 16;
    assert Pow2(6) == 4 * Pow2(4);
  }

  /** One byte: what was written before it and what it adds make up the group so far. */
  lemma ByteStep(val: int, valb: int, group: seq<Octet>, b: Octet)
    requires Holds(val, valb, group)
    ensures var w := Feed8(val, b); var e := Emitted(w, valb + 8);
      && (|group| < 2 ==> Partial(group) + e == Partial(group + [b]) && Holds(w, valb + 2, group + [b]))
      && (|group| == 2 ==> Partial(group) + e == Group3(group[0], group[1], b) && Holds(w, -6, []))
  {
    Feed8Bits(val, b);
    BitsAt(Feed8(val, b));
    hide Feed8, Bits6;
  }

  lemma StandardSmall(g: seq<Octet>)
    ensures |g| == 0 ==> Standard(g) == ""
    ensures |g| == 1 ==> Standard(g) == Partial(g) + [Symbol(Join1(g[0], 0))] + "=="
    ensures |g| == 2 ==> Standard(g) == Partial(g) + [Symbol(Join2(g[1], 0))] + "="
    ensures |g| == 3 ==> Standard(g) == Group3(g[0], g[1], g[2])
  {
    hide Symbol, Top, Join1, Join2, Bottom, Group1, Group2, Group3;
    if |g| == 1 {
      assert Group1(g[0]) == Partial(g) + [Symbol(Join1(g[0], 0))] by { Group1Parts(g[0]); }
    } else if |g| == 2 {
      assert Group2(g[0], g[1]) == Partial(g) + [Symbol(Join2(g[1], 0))] by { Group2Parts(g[0], g[1]); }
    } else if |g| == 3 {
      assert g[3..] == [] && Standard(g[3..]) == "";
    }
  }

  lemma Group1Parts(a: Octet)
    ensures Group1(a) == [Symbol(Top(a))] + [Symbol(Join1(a, 0))]
  {
  }

  lemma Group2Parts(a: Octet, b: Octet)
    ensures Group2(a, b) == [Symbol(Top(a)), Symbol(Join1(a, b))] + [Symbol(Join2(b, 0))]
  {
  }

  /** The inner loop: writes sextets while whole ones are available. */
  method EmitSextets(val: nat, valb: int) returns (s: string, left: int)
    requires valb in {2, 4, 6}
    ensures s == Emitted(val, valb) && left == if valb == 6 then -6 else valb - 6
  {
    s, left := "", valb;
    while left >= 0
      invariant left == valb - 6 * |s| && |s| <= 2
      invariant |s| == 0 ==> s == ""
      invariant |s| == 1 ==> s == [Symbol(Bits6(val, valb))]
      invariant |s| == 2 ==> valb == 6 && s == Emitted(val, valb)
    {
      s := s + [Symbol(Bits6(val, left))];
      left := left - 6;
    }
  }

  /** Encoding follows the standard for every byte string, although the accumulator wraps around. */
  method Encode(data: seq<Octet>) returns (out: string)
    ensures out == Standard(data)
  {
    hide Feed8, Bits6, Emitted, Symbol, Standard;
    out := "";
    var val, valb := 0, -6;
    ghost var done: seq<Octet>, group: seq<Octet> := [], [];
    StandardSmall(done);
    for ii := 0 to |data|
      invariant data[..ii] == done + group && Whole(|done|) && Holds(val, valb, group)
      invariant out == Standard(done) + Partial(group)
    {
      ghost var g := group + [data[ii]];
      assert data[..ii + 1] == done + g;
      ByteStep(val, valb, group, data[ii]);
      val := Feed8(val, data[ii]);
      valb := valb + 8;
      var s;
      s, valb := EmitSextets(val, valb);
      out := out + s;
      assert out == Standard(done) + (Partial(group) + s);
      if |g| == 3 {
        StandardAppend(done, g);
        StandardSmall(g);
        done, group := done + g, [];
      } else {
        group := g;
      }
    }
    assert data[..|data|] == data;
    out := Finish(val, valb, out, done, group);
  }

  /** The bits left over, filled up with zeros. */
  lemma LastSymbol(val: nat, valb: int, group: seq<Octet>)
    requires Holds(val, valb, group) && group != []
    ensures Bits6(val * 256 % TWO32, valb + 8) == if |group| == 1 then Join1(group[0], 0) else Join2(group[1], 0)
  {
    LastBits(val);
    BitsAt(val * 256 % TWO32);
    hide Bits6;
  }

  /** Writes the bits left over and pads to a multiple of four characters. */
  method Finish(val: nat, valb: int, written: string, ghost done: seq<Octet>, ghost group: seq<Octet>)
      returns (out: string)
    requires Holds(val, valb, group) && Whole(|done|) && written == Standard(done) + Partial(group)
    ensures out == Standard(done + group)
  {
    hide Bits6, Symbol, Standard, Top, Join1, Join2;
    StandardAppend(done, group);
    StandardSmall(group);
    StandardLength(done);
    out := written;
    ghost var goal := Standard(done + group);
    if valb > -6 {
      LastSymbol(val, valb, group);
      out := out + [Symbol(Bits6(val * 256 % TWO32, valb + 8))];
      assert goal == out + (if |group| == 1 then "==" else "=");
    } else {
      assert goal == out;
    }
    ghost var k := |out|;
    while |out| % 4 != 0
      invariant k <= |out| <= |goal| && out == goal[..|out|] && |goal| % 4 == 0 && |goal| - k < 4
      invariant forall i :: k <= i < |goal| ==> goal[i] == '='
      decreases |goal| - |out|
    {
      out := out + "=";
    }
  }

  // ---- Decoding ----

  /** The values of the characters before the first one outside the alphabet. */
  ghost function ValidPrefix(text: string): seq<Sextet>
  {
    if text == "" || SymbolValue(text[0]) == -1 then [] else [SymbolValue(text[0])] + ValidPrefix(text[1..])
  }

  /** Four values make three bytes; three left over make two, two make one, and one makes none. */
  ghost function BytesOf(vs: seq<Sextet>): seq<Octet>
  {
    if |vs| < 4 then PartialBytes(vs) else Bytes3(vs[0], vs[1], vs[2], vs[3]) + BytesOf(vs[4..])
  }

  ghost function Byte0(a: Sextet, b: Sextet): Octet { a * 4 + b / 16 }

  ghost function Byte1(b: Sextet, c: Sextet): Octet { b % 16 * 16 + c / 4 }

  ghost function Byte2(c: Sextet, d: Sextet): Octet { c % 4 * 64 + d }

  ghost function Bytes3(a: Sextet, b: Sextet, c: Sextet, d: Sextet): seq<Octet>
  {
    [Byte0(a, b), Byte1(b, c), Byte2(c, d)]
  }

  ghost function PartialBytes(g: seq<Sextet>): seq<Octet>
    requires |g| < 4
  {
    if |g| < 2 then [] else if |g| == 2 then [Byte0(g[0], g[1])] else [Byte0(g[0], g[1]), Byte1(g[1], g[2])]
  }

  function Feed6(val: int, v: Sextet): int { (val * 64 + v) % TWO32 }

  lemma Feed6Bits(val: int, v: Sextet)
    requires 0 <= val < TWO32
    ensures var w := Feed6(val, v);
      && 0 <= w < TWO32 && w % 4 == v % 4 && w % 16 == v % 16 && w % 64 == v
      && (w / 16) % 256 == val % 64 * 4 + v / 16
      && (w / 4) % 256 == val % 16 * 16 + v / 4
      && w % 256 == val % 4 * 64 + v
  {
    var q := Wrap(val * 64 + v);
    var w := Feed6(val, v);
    assert w == val * 64 + v - q * TWO32;
    hide Feed6;
    var v4, v16 := v / 4, v / 16;
    var a4, a16, a64 := val / 4, val / 16, val / 64;
    Split64(w, val - q * 0x400_0000, v);
    Split16(w, val * 4 - q * 0x1000_0000 + v16, v % 16);
    Split256(w / 16, a64 - q * 0x10_0000, val % 64 * 4 + v16);
    Split4(w, val * 16 - q * 0x4000_0000 + v4, v % 4);
    Split256(w / 4, a16 - q * 0x40_0000, val % 16 * 16 + v4);
    Split256(w, a4 - q * 0x100_0000, val % 4 * 64 + v);
  }

  /** `(val >> shift) & 0xFF` */
  function Bits8(val: nat, shift: nat): Octet
  {
    Pow2Positive(shift);
    (val / Pow2(shift)) % 256
  }

  lemma ByteBitsAt(val: nat)
    ensures Bits8(val, 0) == val % 256 && Bits8(val, 2) == (val / 4) % 256 && Bits8(val, 4) == (val / 16) % 256
  {
    assert Pow2(0) == 1 && Pow2(2) == 4 && Pow2(4) == 16;
  }

  ghost predicate HoldsSextets(val: int, valb: int, g: seq<Sextet>)
  {
    && 0 <= val < TWO32 && |g| < 4 && valb == (if g == [] then -8 else -2 * |g|)
    && (|g| == 1 ==> val % 64 == g[0]) && (|g| == 2 ==> val % 16 == g[1] % 16) && (|g| == 3 ==> val % 4 == g[2] % 4)
  }

  lemma SextetStep(val: int, valb: int, g: seq<Sextet>, v: Sextet)
    requires HoldsSextets(val, valb, g)
    ensures var w := Feed6(val, v);
      && (|g| == 0 ==> valb + 6 < 0 && HoldsSextets(w, valb + 6, g + [v]))
      && (0 < |g| < 3 ==> valb + 6 >= 0 && PartialBytes(g) + [Bits8(w, valb + 6)] == PartialBytes(g + [v])
                          && HoldsSextets(w, valb - 2, g + [v]))
      && (|g| == 3 ==> valb + 6 >= 0 && PartialBytes(g) + [Bits8(w, valb + 6)] == Bytes3(g[0], g[1], g[2], v)
                       && HoldsSextets(w, valb - 2, []))
  {
    Feed6Bits(val, v);
    ByteBitsAt(Feed6(val, v));
    hide Feed6, Bits8;
  }

  lemma {:induction false} BytesAppend(a: seq<Sextet>, b: seq<Sextet>)
    requires |a| % 4 == 0
    ensures BytesOf(a + b) == BytesOf(a) + BytesOf(b)
    decreases |a|
  {
    hide Bytes3;
    if a == [] {
      assert a + b == b;
    } else {
      BytesAppend(a[4..], b);
      assert (a + b)[4..] == a[4..] + b;
      assert BytesOf(a + b) == Bytes3(a[0], a[1], a[2], a[3]) + BytesOf(a[4..] + b);
    }
  }

  lemma BytesSmall(g: seq<Sextet>)
    ensures |g| < 4 ==> BytesOf(g) == PartialBytes(g)
    ensures |g| == 4 ==> BytesOf(g) == Bytes3(g[0], g[1], g[2], g[3])
  {
    if |g| == 4 {
      assert g[4..] == [] && BytesOf(g[4..]) == [];
    }
  }

  lemma {:induction false} PrefixExtends(text: string, n: nat)
    requires n < |text| && |ValidPrefix(text[..n])| == n
    ensures SymbolValue(text[n]) != -1 ==> ValidPrefix(text[..n + 1]) == ValidPrefix(text[..n]) + [SymbolValue(text[n])]
    ensures SymbolValue(text[n]) == -1 ==> ValidPrefix(text) == ValidPrefix(text[..n])
    decreases n
  {
    var t := text[1..];
    if n > 0 {
      assert text[..n][1..] == t[..n - 1] && text[..n + 1][1..] == t[..n];
      PrefixExtends(t, n - 1);
    } else {
      assert text[..1][1..] == "";
    }
  }

  /** The table has 256 entries and is indexed by the character itself, which is negative from 128 on where
      characters are signed. */
  predicate InTable(c: char, signedChar: bool) { c as int < if signedChar then 128 else 256 }

  /** The character that ends the scan, if one does, has an entry in the table. */
  ghost predicate ScanStaysInTable(text: string, signedChar: bool)
  {
    var n := |ValidPrefix(text)|;
    n < |text| ==> InTable(text[n], signedChar)
  }

  /** Decoding reads a text up to the first character outside the alphabet; it is defined exactly when that
      character has an entry in the table. */
  method Decode(text: string, signedChar: bool) returns (r: Option<seq<Octet>>)
    ensures r == if ScanStaysInTable(text, signedChar) then Some(BytesOf(ValidPrefix(text))) else None
    ensures r == None <==>
      var n := |ValidPrefix(text)|; n < |text| && text[n] as int >= if signedChar then 128 else 256
  {
    var out, i := DecodeScan(text, signedChar);
    r := if i < |text| && !InTable(text[i], signedChar) then None else Some(out);
  }

  /** The loop, which stops in front of a character without an entry. */
  method DecodeScan(text: string, signedChar: bool) returns (out: seq<Octet>, i: nat)
    ensures i == |ValidPrefix(text)| <= |text| && out == BytesOf(ValidPrefix(text))
  {
    hide Feed6, Bits8, BytesOf, SymbolValue, PartialBytes, Bytes3, Byte0, Byte1, Byte2;
    out := [];
    var val, valb := 0, -8;
    i := 0;
    ghost var done: seq<Sextet>, group: seq<Sextet> := [], [];
    BytesSmall([]);
    FirstSextet([], [0]);
    while i < |text| && InTable(text[i], signedChar) && SymbolValue(text[i]) != -1
      invariant 0 <= i <= |text| && ValidPrefix(text[..i]) == done + group && |done + group| == i
      invariant |done| % 4 == 0 && HoldsSextets(val, valb, group)
      invariant out == BytesOf(done) + PartialBytes(group)
    {
      var v := SymbolValue(text[i]);
      ghost var g := group + [v];
      PrefixExtends(text, i);
      assert ValidPrefix(text[..i + 1]) == done + g;
      SextetStep(val, valb, group, v);
      val := Feed6(val, v);
      valb := valb + 6;
      if valb >= 0 {
        out := out + [Bits8(val, valb)];
        assert out == BytesOf(done) + (PartialBytes(group) + [Bits8(val, valb)]);
        valb := valb - 8;
      } else {
        BytesSmall(group);
        BytesSmall(g);
        assert PartialBytes(g) == PartialBytes(group) == [] by { FirstSextet(group, g); }
      }
      if |g| == 4 {
        BytesAppend(done, g);
        BytesSmall(g);
        done, group := done + g, [];
        BytesSmall([]);
        assert PartialBytes([]) == [] by { FirstSextet([], [v]); }
      } else {
        group := g;
      }
      i := i + 1;
    }
    if i < |text| {
      assert SymbolValue(text[i]) == -1 by { OutsideTable(text[i], signedChar); }
      PrefixExtends(text, i);
    }
    assert text[..|text|] == text;
    BytesAppend(done, group);
    BytesSmall(group);
  }

  lemma OutsideTable(c: char, signedChar: bool)
    ensures !InTable(c, signedChar) ==> SymbolValue(c) == -1
  {
  }

  lemma FirstSextet(group: seq<Sextet>, g: seq<Sextet>)
    requires |group| == 0 && |g| == 1
    ensures PartialBytes(group) == [] && PartialBytes(g) == []
  {
  }

  // ---- Round trip ----

  lemma PrefixOfSymbols(vs: seq<Sextet>, rest: string)
    ensures ValidPrefix(Symbols(vs) + rest) == vs + ValidPrefix(rest)
    decreases |vs|
  {
    if vs == [] {
      assert Symbols(vs) + rest == rest;
    } else {
      AlphabetInverse(vs[0]);
      var t := Symbols(vs) + rest;
      assert t[1..] == Symbols(vs[1..]) + rest;
      PrefixOfSymbols(vs[1..], rest);
    }
  }

  ghost function Symbols(vs: seq<Sextet>): (r: string)
    ensures |r| == |vs|
  {
    seq(|vs|, i requires 0 <= i < |vs| => Symbol(vs[i]))
  }

  lemma PaddingEnds(padding: string)
    requires padding == "=" || padding == "=="
    ensures ValidPrefix(padding) == []
  {
  }

  lemma Tail1(a: Octet)
    ensures BytesOf(ValidPrefix(Group1(a) + "==")) == [a]
  {
    hide Top, Join1, Join2, Bottom, Byte0, Byte1, Byte2, ValidPrefix, BytesOf, Symbol;
    var vs: seq<Sextet> := [Top(a), Join1(a, 0)];
    assert ValidPrefix(Group1(a) + "==") == vs by {
      assert Group1(a) == Symbols(vs);
      PrefixOfSymbols(vs, "==");
      PaddingEnds("==");
    }
    assert BytesOf(vs) == [a] by {
      BytesSmall(vs);
      Regroup(a, 0, 0);
    }
  }

  lemma Tail2(a: Octet, b: Octet)
    ensures BytesOf(ValidPrefix(Group2(a, b) + "=")) == [a, b]
  {
    hide Top, Join1, Join2, Bottom, Byte0, Byte1, Byte2, ValidPrefix, BytesOf, Symbol;
    var vs: seq<Sextet> := [Top(a), Join1(a, b), Join2(b, 0)];
    assert ValidPrefix(Group2(a, b) + "=") == vs by {
      assert Group2(a, b) == Symbols(vs);
      PrefixOfSymbols(vs, "=");
      PaddingEnds("=");
    }
    assert BytesOf(vs) == [a, b] by {
      BytesSmall(vs);
      Regroup(a, b, 0);
    }
  }

  lemma Head3(a: Octet, b: Octet, c: Octet, rest: string)
    ensures BytesOf(ValidPrefix(Group3(a, b, c) + rest)) == [a, b, c] + BytesOf(ValidPrefix(rest))
  {
    var vs: seq<Sextet> := [Top(a), Join1(a, b), Join2(b, c), Bottom(c)];
    assert Group3(a, b, c) == Symbols(vs);
    PrefixOfSymbols(vs, rest);
    BytesAppend(vs, ValidPrefix(rest));
    Regroup(a, b, c);
    BytesSmall(vs);
    hide Top, Join1, Join2, Bottom, Byte0, Byte1, Byte2, ValidPrefix, BytesOf, Symbols, Group3;
  }

  /** Decoding undoes encoding, for every byte string. */
  lemma {:induction false} RoundTrip(data: seq<Octet>)
    ensures BytesOf(ValidPrefix(Standard(data))) == data
    decreases |data|
  {
    hide Group1, Group2, Group3;
    if |data| == 1 {
      Tail1(data[0]);
    } else if |data| == 2 {
      Tail2(data[0], data[1]);
    } else if |data| >= 3 {
      hide BytesOf, ValidPrefix;
      Head3(data[0], data[1], data[2], Standard(data[3..]));
      RoundTrip(data[3..]);
      assert data == [data[0], data[1], data[2]] + data[3..];
    }
  }

  lemma Regroup(a: Octet, b: Octet, c: Octet)
    ensures Byte0(Top(a), Join1(a, b)) == a && Byte1(Join1(a, b), Join2(b, c)) == b
      && Byte2(Join2(b, c), Bottom(c)) == c
  {
  }

  lemma AsciiSymbol(v: Sextet)
    ensures Symbol(v) as int < 128
  {
  }

  ghost predicate Ascii(s: string) { forall i :: 0 <= i < |s| ==> s[i] as int < 128 }

  lemma AsciiGroups(a: Octet, b: Octet, c: Octet)
    ensures Ascii(Group1(a) + "==") && Ascii(Group2(a, b) + "=") && Ascii(Group3(a, b, c))
  {
    forall v: Sextet ensures Symbol(v) as int < 128 { AsciiSymbol(v); }
    hide Symbol;
  }

  lemma {:induction false} StandardIsAscii(data: seq<Octet>)
    ensures Ascii(Standard(data))
  {
    hide Group1, Group2, Group3;
    if |data| == 1 {
      AsciiGroups(data[0], 0, 0);
    } else if |data| == 2 {
      AsciiGroups(data[0], data[1], 0);
    } else if |data| > 2 {
      AsciiGroups(data[0], data[1], data[2]);
      StandardIsAscii(data[3..]);
    }
  }

  lemma {:induction false} PrefixNoLonger(text: string)
    ensures |ValidPrefix(text)| <= |text|
  {
    if text != "" {
      PrefixNoLonger(text[1..]);
    }
  }

  /** The two functions of the library one after the other, whether characters are signed or not. */
  method EncodeAndDecode(data: seq<Octet>, signedChar: bool) returns (r: Option<seq<Octet>>)
    ensures r == Some(data)
  {
    hide Standard, ValidPrefix, BytesOf;
    var text := Encode(data);
    StandardIsAscii(data);
    PrefixNoLonger(text);
    RoundTrip(data);
    r := Decode(text, signedChar);
  }
}
