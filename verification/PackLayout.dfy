/** Where everything is in a pack file, byte by byte. */
module PackLayout {
  import opened Bytes
  import opened PackArchive
  import opened PackFiles

  /** A pack begins with the letters KPAK and with version 0.2. */
  lemma HeaderIs()
    ensures HeaderBytes() == [0x4b, 0x50, 0x41, 0x4b, 0, 0, 2, 0]
  {
    var m, v, w := LittleEndian(MAGIC, 4), LittleEndian(MAJOR, 2), LittleEndian(MINOR, 2);
    Digits4(MAGIC);
    Digits2(MAJOR);
    Digits2(MINOR);
    hide LittleEndian;
    assert m[0] == 0x4b && m[1] == 0x50 && m[2] == 0x41 && m[3] == 0x4b;
    assert HeaderBytes() == [m[0], m[1], m[2], m[3]] + [v[0], v[1]] + [w[0], w[1]];
  }

  lemma Digits2(v: nat)
    ensures LittleEndian(v, 2)[0] == v % 256 && LittleEndian(v, 2)[1] == v / 256 % 256
  {
    ByteAt(v, 2, 0);
    ByteAt(v, 2, 1);
    assert Limit(0) == 1 && Limit(1) == 256;
  }

  lemma Digits4(v: nat)
    ensures var bs := LittleEndian(v, 4);
      bs[0] == v % 256 && bs[1] == v / 256 % 256 && bs[2] == v / 0x1_0000 % 256 && bs[3] == v / 0x100_0000 % 256
  {
    ByteAt(v, 4, 0);
    ByteAt(v, 4, 1);
    ByteAt(v, 4, 2);
    ByteAt(v, 4, 3);
    assert Limit(0) == 1 && Limit(1) == 256 && Limit(2) == 0x1_0000 && Limit(3) == 0x100_0000;
  }

  /** After the header come the number of entries, the entries, the number of data bytes and the data. */
  lemma PackParts(index: seq<Item>, data: seq<Octet>)
    ensures var c, n := Pack(index, data), 16 + 16 * |index|;
      && |c| == n + 8 + |data|
      && c[0..8] == HeaderBytes() && c[8..16] == LittleEndian(|index|, 8) && c[16..n] == ItemsBytes(index)
      && c[n..n + 8] == LittleEndian(|data|, 8) && c[n + 8..] == data
  {
    var c, n := Pack(index, data), 16 + 16 * |index|;
    var head, count, items, size := HeaderBytes(), LittleEndian(|index|, 8), ItemsBytes(index), LittleEndian(|data|, 8);
    hide HeaderBytes, LittleEndian, ItemsBytes;
    assert c == head + count + items + size + data by {
      Associate(head, count, items, size, data);
    }
    hide Pack;
    Slices(head, count, items, size, data);
  }

  lemma Associate(a: seq<Octet>, b: seq<Octet>, c: seq<Octet>, d: seq<Octet>, e: seq<Octet>)
    ensures a + (b + c) + (d + e) == a + b + c + d + e
  {
  }

  lemma Slices(a: seq<Octet>, b: seq<Octet>, c: seq<Octet>, d: seq<Octet>, e: seq<Octet>)
    ensures var s := a + b + c + d + e; var i, j, k := |a|, |a| + |b|, |a| + |b| + |c|;
      && |s| == k + |d| + |e| && s[0..i] == a && s[i..j] == b && s[j..k] == c
      && s[k..k + |d|] == d && s[k + |d|..] == e
  {
    var s := a + b + c + d + e;
    assert s == a + (b + c + d + e) && s == a + b + (c + d + e) && s == (a + b) + c + (d + e);
    SliceOf(a, b, c + d + e);
    SliceOf(a + b, c, d + e);
    SliceOf(a + b + c, d, e);
  }

  /** An entry is its key, the offset of its bytes and their number. */
  lemma EntryParts(index: seq<Item>, data: seq<Octet>, i: nat)
    requires i < |index|
    ensures var c, at := Pack(index, data), 16 + 16 * i;
      && at + 16 <= |c|
      && c[at..at + 8] == LittleEndian(index[i].key, 8)
      && c[at + 8..at + 12] == LittleEndian(index[i].entry.offset, 4)
      && c[at + 12..at + 16] == LittleEndian(index[i].entry.size, 4)
  {
    var c, at := Pack(index, data), 16 + 16 * i;
    PackParts(index, data);
    hide LittleEndian, ItemsBytes, Pack, HeaderBytes;
    ItemPlace(c, 16, index, i);
    var bs := ItemBytes(index[i]);
    SubSlice(c, at, at + 16, 0, 8);
    SubSlice(c, at, at + 16, 8, 12);
    SubSlice(c, at, at + 16, 12, 16);
    assert bs[0..8] == LittleEndian(index[i].key, 8);
    assert bs[8..12] == LittleEndian(index[i].entry.offset, 4);
    assert bs[12..16] == LittleEndian(index[i].entry.size, 4);
  }
}
