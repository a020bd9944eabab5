/** What the groups of Base64 mean as numbers, and the test vectors of section 10 of RFC 4648. */
module Base64Vectors {
  import opened Bytes
  import opened Base64

  // ---- Groups of 24 bits ----

  /** The number three bytes make, first byte highest. */
  ghost function Of3(a: Octet, b: Octet, c: Octet): nat { 0x1_0000 * a + 0x100 * b + c }

  /** The number four sextets make, first sextet highest. */
  ghost function Of4(p: Sextet, q: Sextet, r: Sextet, s: Sextet): nat { 0x4_0000 * p + 0x1000 * q + 0x40 * r + s }

  /** Encoding cuts the 24 bits of three bytes into four sextets; a group that is short is filled up with zeros. */
  lemma EncodedGroup(a: Octet, b: Octet, c: Octet)
    ensures Of4(Top(a), Join1(a, b), Join2(b, c), Bottom(c)) == Of3(a, b, c)
  {
  }

  /** Byte `i` of the data, or zero beyond its end. */
  ghost function ByteOr0(data: seq<Octet>, i: nat): Octet { if i < |data| then data[i] else 0 }

  /** The standard's text begins with the symbols of the first group, padded to four characters if it is short. */
  lemma EncodedText(data: seq<Octet>) returns (p: Sextet, q: Sextet, r: Sextet, s: Sextet)
    requires data != []
    ensures Of4(p, q, r, s) == Of3(data[0], ByteOr0(data, 1), ByteOr0(data, 2))
    ensures |data| >= 3 ==> Standard(data) == [Symbol(p), Symbol(q), Symbol(r), Symbol(s)] + Standard(data[3..])
    ensures |data| == 2 ==> Standard(data) == [Symbol(p), Symbol(q), Symbol(r)] + "=" && s == 0
    ensures |data| == 1 ==> Standard(data) == [Symbol(p), Symbol(q)] + "==" && r == s == 0
  {
    hide Symbol, Top, Join1, Join2, Bottom, Of3, Of4;
    var a, b, c := data[0], ByteOr0(data, 1), ByteOr0(data, 2);
    EncodedGroup(a, b, c);
    ZeroBits();
    p, q, r, s := Top(a), Join1(a, b), Join2(b, c), Bottom(c);
  }

  lemma ZeroBits()
    ensures Join2(0, 0) == Bottom(0) == 0
  {
  }

  /** Decoding cuts the 24 bits of four sextets into three bytes. */
  lemma DecodedGroup(p: Sextet, q: Sextet, r: Sextet, s: Sextet)
    ensures Of3(Byte0(p, q), Byte1(q, r), Byte2(r, s)) == Of4(p, q, r, s)
  {
  }

  /** Sextet `i`, or zero beyond the end. */
  ghost function SextetOr0(vs: seq<Sextet>, i: nat): Sextet { if i < |vs| then vs[i] else 0 }

  /** Whole groups of four make three bytes each; of a short group only the bytes it covers are kept. */
  lemma DecodedBytes(vs: seq<Sextet>) returns (a: Octet, b: Octet, c: Octet)
    requires vs != []
    ensures Of3(a, b, c) == Of4(vs[0], SextetOr0(vs, 1), SextetOr0(vs, 2), SextetOr0(vs, 3))
    ensures BytesOf(vs) == if |vs| >= 4 then [a, b, c] + BytesOf(vs[4..])
                           else if |vs| == 3 then [a, b] else if |vs| == 2 then [a] else []
  {
    var p, q, r, s := vs[0], SextetOr0(vs, 1), SextetOr0(vs, 2), SextetOr0(vs, 3);
    DecodedGroup(p, q, r, s);
    a, b, c := Byte0(p, q), Byte1(q, r), Byte2(r, s);
    hide Byte0, Byte1, Byte2, Of3, Of4;
  }

  /** Decoding reads the characters of the alphabet up to the first other one. */
  lemma {:induction false} PrefixEnds(text: string)
    ensures var vs := ValidPrefix(text);
      && |vs| <= |text| && |ALPHABET| == 64
      && (forall i :: 0 <= i < |vs| ==> ALPHABET[vs[i]] == text[i])
      && (|vs| < |text| ==> text[|vs|] !in ALPHABET)
  {
    hide ALPHABET, SymbolValue;
    if text == "" {
      ValueIsPlace('A', 0);
    } else {
      var v := SymbolValue(text[0]);
      ValueIsPlace(text[0], if v == -1 then 0 else v);
      PrefixEnds(text[1..]);
    }
  }

  // ---- Test vectors ----

  lemma Empty()
    ensures Standard([]) == ""
  {
  }

  lemma Foo()
    ensures Standard([102]) == "Zg==" && Standard([102, 111]) == "Zm8=" && Standard([102, 111, 111]) == "Zm9v"
  {
    assert [102, 111, 111][3..] == [];
  }

  lemma Foobar()
    ensures Standard([102, 111, 111, 98]) == "Zm9vYg==" && Standard([102, 111, 111, 98, 97]) == "Zm9vYmE="
    ensures Standard([102, 111, 111, 98, 97, 114]) == "Zm9vYmFy"
  {
    Foo();
    assert [102, 111, 111, 98][3..] == [98] && [102, 111, 111, 98, 97][3..] == [98, 97];
    assert [102, 111, 111, 98, 97, 114][3..] == [98, 97, 114] && [98, 97, 114][3..] == [];
    assert Standard([98]) == "Yg==" && Standard([98, 97]) == "YmE=" && Standard([98, 97, 114]) == "YmFy";
  }

  lemma Man()
    ensures Standard([77, 97, 110]) == "TWFu"
  {
    assert [77, 97, 110][3..] == [];
  }

  lemma ManBack()
    ensures BytesOf(ValidPrefix("TWFu")) == [77, 97, 110]
  {
    Man();
    hide Standard;
    RoundTrip([77, 97, 110]);
  }
}
