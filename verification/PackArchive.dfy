/** The pack file format: a header, an index of entries and one blob of data. */
module PackArchive {
  import opened Bytes
  import opened ByteStreams

  const MAGIC := 0x4b41504b
  const MAJOR := 0
  const MINOR := 2

  datatype Entry = Entry(offset: nat, size: nat)

  datatype Item = Item(key: nat, entry: Entry)

  /** Fields fit the widths they are stored in. */
  ghost predicate Fits(it: Item)
  {
    it.key < TWO64 && it.entry.offset < TWO32 && it.entry.size < TWO32
  }

  ghost predicate AllFit(items: seq<Item>)
  {
    |items| < TWO64 && forall i :: 0 <= i < |items| ==> Fits(items[i])
  }

  ghost predicate DistinctKeys(items: seq<Item>)
  {
    forall i, j :: 0 <= i < j < |items| ==> items[i].key != items[j].key
  }

  /** Adds an item unless its key is taken. */
  function Emplace(items: seq<Item>, it: Item): seq<Item>
  {
    if HasKey(items, it.key) then items else items + [it]
  }

  predicate HasKey(items: seq<Item>, key: nat)
  {
    exists i :: 0 <= i < |items| && items[i].key == key
  }

  // ---- Writing ----

  ghost function HeaderBytes(): (bs: seq<Octet>)
    ensures |bs| == 8
  {
    LittleEndian(MAGIC, 4) + LittleEndian(MAJOR, 2) + LittleEndian(MINOR, 2)
  }

  ghost function ItemBytes(it: Item): (bs: seq<Octet>)
    ensures |bs| == 16
  {
    LittleEndian(it.key, 8) + (LittleEndian(it.entry.offset, 4) + LittleEndian(it.entry.size, 4))
  }

  ghost function ItemsBytes(items: seq<Item>): (bs: seq<Octet>)
    ensures |bs| == 16 * |items|
  {
    if items == [] then [] else ItemsBytes(items[..|items| - 1]) + ItemBytes(items[|items| - 1])
  }

  ghost function IndexBytes(items: seq<Item>): (bs: seq<Octet>)
    ensures |bs| == 16 + 16 * |items|
  {
    HeaderBytes() + (LittleEndian(|items|, 8) + ItemsBytes(items))
  }

  ghost function BlobBytes(data: seq<Octet>): (bs: seq<Octet>)
    ensures |bs| == 8 + |data|
  {
    LittleEndian(|data|, 8) + data
  }

  method WriteItem(out: OutStream, it: Item) returns (ok: bool)
    modifies out
    ensures ok == out.good && Sent(old(out.bytes), old(out.good), out.bytes, out.good, out.room, ItemBytes(it))
  {
    hide Sent;
    ghost var s0, g0 := out.bytes, out.good;
    ghost var key, pair := LittleEndian(it.key, 8), LittleEndian(it.entry.offset, 4) + LittleEndian(it.entry.size, 4);
    ok := out.WriteUint(it.key, 8);
    ghost var s1, g1 := out.bytes, out.good;
    if !ok {
      SentFailed(s0, g0, s1, out.room, key, pair);
      return;
    }
    ok := out.Write(LittleEndian(it.entry.offset, 4) + LittleEndian(it.entry.size, 4));
    SentJoin(s0, g0, s1, g1, out.bytes, out.good, out.room, key, pair);
  }

  method WriteMap(out: OutStream, items: seq<Item>) returns (ok: bool)
    modifies out
    ensures ok == out.good && Sent(old(out.bytes), old(out.good), out.bytes, out.good, out.room,
      LittleEndian(|items|, 8) + ItemsBytes(items))
  {
    hide Sent;
    ghost var s0, g0 := out.bytes, out.good;
    ghost var size := LittleEndian(|items|, 8);
    ok := out.WriteUint(|items|, 8);
    if !ok {
      SentFailed(s0, g0, out.bytes, out.room, size, ItemsBytes(items));
      return;
    }
    assert size + ItemsBytes(items[..0]) == size;
    for i := 0 to |items|
      invariant ok == out.good && ok && Sent(s0, g0, out.bytes, out.good, out.room, size + ItemsBytes(items[..i]))
    {
      ghost var s1, g1 := out.bytes, out.good;
      ghost var done := size + ItemsBytes(items[..i]);
      assert items[..i + 1][..i] == items[..i];
      assert size + ItemsBytes(items[..i + 1]) == done + ItemBytes(items[i]);
      ok := WriteItem(out, items[i]);
      SentJoin(s0, g0, s1, g1, out.bytes, out.good, out.room, done, ItemBytes(items[i]));
      if !ok {
        ItemsSplit(items, i + 1);
        ghost var rest := ItemsBytes(items[i + 1..]);
        SentFailed(s0, g0, out.bytes, out.room, size + ItemsBytes(items[..i + 1]), rest);
        assert size + ItemsBytes(items[..i + 1]) + rest == size + ItemsBytes(items);
        return;
      }
    }
    assert items[..|items|] == items;
  }

  lemma {:induction false} ItemsSplit(items: seq<Item>, i: nat)
    requires i <= |items|
    ensures ItemsBytes(items) == ItemsBytes(items[..i]) + ItemsBytes(items[i..])
    decreases |items|
  {
    hide ItemBytes;
    if i == |items| {
      assert items[..i] == items && items[i..] == [];
    } else {
      var most, last := items[..|items| - 1], items[|items| - 1];
      var tail := items[i..];
      ItemsSplit(most, i);
      assert most[..i] == items[..i] && tail[..|tail| - 1] == most[i..] && tail[|tail| - 1] == last;
      assert ItemsBytes(tail) == ItemsBytes(most[i..]) + ItemBytes(last);
    }
  }

  method WriteIndex(out: OutStream, items: seq<Item>) returns (ok: bool)
    modifies out
    ensures ok == out.good && Sent(old(out.bytes), old(out.good), out.bytes, out.good, out.room, IndexBytes(items))
  {
    hide Sent;
    ghost var s0, g0 := out.bytes, out.good;
    ghost var body := LittleEndian(|items|, 8) + ItemsBytes(items);
    ok := out.Write(LittleEndian(MAGIC, 4) + LittleEndian(MAJOR, 2) + LittleEndian(MINOR, 2));
    ghost var s1, g1 := out.bytes, out.good;
    if !ok {
      SentFailed(s0, g0, s1, out.room, HeaderBytes(), body);
      return;
    }
    ok := WriteMap(out, items);
    SentJoin(s0, g0, s1, g1, out.bytes, out.good, out.room, HeaderBytes(), body);
  }

  /** A vector of bytes: its size, then each element. */
  method WriteBlob(out: OutStream, data: seq<Octet>) returns (ok: bool)
    modifies out
    ensures ok == out.good && Sent(old(out.bytes), old(out.good), out.bytes, out.good, out.room, BlobBytes(data))
  {
    hide Sent;
    ghost var s0, g0 := out.bytes, out.good;
    ghost var size := LittleEndian(|data|, 8);
    ok := out.WriteUint(|data|, 8);
    if !ok {
      SentFailed(s0, g0, out.bytes, out.room, size, data);
      return;
    }
    assert size + data[..0] == size;
    for i := 0 to |data|
      invariant ok == out.good && ok && Sent(s0, g0, out.bytes, out.good, out.room, size + data[..i])
    {
      ghost var s1, g1 := out.bytes, out.good;
      assert size + data[..i + 1] == (size + data[..i]) + [data[i]];
      ok := out.Write([data[i]]);
      SentJoin(s0, g0, s1, g1, out.bytes, out.good, out.room, size + data[..i], [data[i]]);
      if !ok {
        SentFailed(s0, g0, out.bytes, out.room, size + data[..i + 1], data[i + 1..]);
        assert size + data[..i + 1] + data[i + 1..] == size + data;
        return;
      }
    }
    assert data[..|data|] == data;
  }

  // ---- Reading ----

  datatype Parsed = Index(items: seq<Item>) | BadHeader | Short

  function ItemAt(c: seq<Octet>, p: nat): Item
    requires p + 16 <= |c|
  {
    Item(Value(c[p..p + 8]), Entry(Value(c[p + 8..p + 12]), Value(c[p + 12..p + 16])))
  }

  /** `n` items from position `p` on; a key seen before is skipped. */
  ghost function ParseItems(c: seq<Octet>, p: nat, n: nat, acc: seq<Item>): Parsed
    decreases n
  {
    if n == 0 then Index(acc)
    else if p + 16 > |c| then Short
    else ParseItems(c, p + 16, n - 1, Emplace(acc, ItemAt(c, p)))
  }

  predicate HeaderAt(c: seq<Octet>, p: nat)
    requires p + 8 <= |c|
  {
    Value(c[p..p + 4]) == MAGIC && Value(c[p + 4..p + 6]) == MAJOR && Value(c[p + 6..p + 8]) == MINOR
  }

  ghost function ParseIndex(c: seq<Octet>, p: nat): Parsed
  {
    if p + 8 > |c| then Short
    else if !HeaderAt(c, p) then BadHeader
    else if p + 16 > |c| then Short
    else ParseItems(c, p + 16, Value(c[p + 8..p + 16]), [])
  }

  lemma SubSlice(c: seq<Octet>, a: nat, b: nat, i: nat, j: nat)
    requires a <= b <= |c| && i <= j <= b - a
    ensures c[a..b][i..j] == c[a + i..a + j]
  {
    var x, y := c[a..b][i..j], c[a + i..a + j];
    assert |x| == |y| && forall k :: 0 <= k < |x| ==> x[k] == c[a + i + k] && y[k] == c[a + i + k];
  }

  /** A field read as part of a larger read. */
  method Field(bs: seq<Octet>, i: nat, j: nat, ghost c: seq<Octet>, ghost a: nat) returns (v: nat)
    requires i <= j <= |bs| && a + |bs| <= |c| && bs == c[a..a + |bs|]
    ensures v == Value(c[a + i..a + j])
  {
    hide Value;
    SubSlice(c, a, a + |bs|, i, j);
    v := Value(bs[i..j]);
  }

  method ReadIndex(in_: InStream) returns (r: Parsed)
    requires in_.Valid() && in_.good
    modifies in_
    ensures in_.Valid() && r == ParseIndex(in_.contents, old(in_.pos))
    ensures r.Index? ==> in_.good
  {
    hide Value, ParseItems;
    ghost var c, p := in_.contents, in_.pos;
    var header := in_.Read(8);
    if !in_.good { return Short; }
    var magic := Field(header, 0, 4, c, p);
    var major := Field(header, 4, 6, c, p);
    var minor := Field(header, 6, 8, c, p);
    if magic != MAGIC || major != MAJOR || minor != MINOR {
      return BadHeader;
    }
    var ok, n := in_.ReadUint(8);
    if !ok { return Short; }
    r := ReadItems(in_, n);
  }

  method ReadItems(in_: InStream, n: nat) returns (r: Parsed)
    requires in_.Valid() && in_.good
    modifies in_
    ensures in_.Valid() && r == ParseItems(in_.contents, old(in_.pos), n, [])
    ensures r.Index? ==> in_.good
  {
    hide Emplace, ParseItems, Value;
    var items: seq<Item> := [];
    ghost var p := in_.pos;
    for i := 0 to n
      invariant in_.Valid() && in_.good
      invariant ParseItems(in_.contents, p, n, []) == ParseItems(in_.contents, in_.pos, n - i, items)
    {
      ghost var at := in_.pos;
      var keyOk, key := in_.ReadUint(8);
      ParseOne(in_.contents, at, n - i, items);
      if !keyOk { return Short; }
      var pair := in_.Read(8);
      if !in_.good { return Short; }
      var offset := Field(pair, 0, 4, in_.contents, at + 8);
      var size := Field(pair, 4, 8, in_.contents, at + 8);
      items := Emplace(items, Item(key, Entry(offset, size)));
    }
    ParseNone(in_.contents, in_.pos, items);
    r := Index(items);
  }

  lemma ParseNone(c: seq<Octet>, p: nat, acc: seq<Item>)
    ensures ParseItems(c, p, 0, acc) == Index(acc)
  {
  }

  lemma ParseOne(c: seq<Octet>, p: nat, n: nat, acc: seq<Item>)
    requires n > 0
    ensures ParseItems(c, p, n, acc) ==
      if p + 16 > |c| then Short else ParseItems(c, p + 16, n - 1, Emplace(acc, ItemAt(c, p)))
  {
  }

  // ---- What was written is read back ----

  lemma SliceOf(pre: seq<Octet>, mid: seq<Octet>, post: seq<Octet>)
    ensures (pre + mid + post)[|pre|..|pre| + |mid|] == mid
  {
  }

  lemma UintAt(c: seq<Octet>, p: nat, v: nat, n: nat)
    requires p + n <= |c| && c[p..p + n] == LittleEndian(v, n) && v < Limit(n)
    ensures Value(c[p..p + n]) == v
  {
    ValueOfBytes(v, n);
  }

  lemma ItemWritten(c: seq<Octet>, p: nat, it: Item)
    requires p + 16 <= |c| && c[p..p + 16] == ItemBytes(it) && Fits(it)
    ensures ItemAt(c, p) == it
  {
    hide LittleEndian, Value, Limit;
    Limits();
    var bs := ItemBytes(it);
    SubSlice(c, p, p + 16, 0, 8);
    SubSlice(c, p, p + 16, 8, 12);
    SubSlice(c, p, p + 16, 12, 16);
    assert bs[0..8] == LittleEndian(it.key, 8) && bs[8..12] == LittleEndian(it.entry.offset, 4)
      && bs[12..16] == LittleEndian(it.entry.size, 4);
    UintAt(c, p, it.key, 8);
    UintAt(c, p + 8, it.entry.offset, 4);
    UintAt(c, p + 12, it.entry.size, 4);
  }

  lemma {:induction false} ItemsWritten(c: seq<Octet>, p: nat, items: seq<Item>, i: nat)
    requires p + 16 * |items| <= |c| && c[p..p + 16 * |items|] == ItemsBytes(items)
    requires AllFit(items) && DistinctKeys(items) && i <= |items|
    ensures ParseItems(c, p + 16 * i, |items| - i, items[..i]) == Index(items)
    decreases |items| - i
  {
    hide ItemAt, ItemsBytes, ItemBytes, Emplace, AllFit, DistinctKeys, ParseItems;
    if i == |items| {
      assert items[..i] == items;
      ParseNone(c, p + 16 * i, items);
    } else {
      ItemBack(c, p, items, i);
      ParseOne(c, p + 16 * i, |items| - i, items[..i]);
      EmplaceNext(items, i);
      ItemsWritten(c, p, items, i + 1);
    }
  }

  lemma ItemBack(c: seq<Octet>, p: nat, items: seq<Item>, i: nat)
    requires p + 16 * |items| <= |c| && c[p..p + 16 * |items|] == ItemsBytes(items)
    requires AllFit(items) && i < |items|
    ensures ItemAt(c, p + 16 * i) == items[i]
  {
    hide ItemAt, ItemsBytes, ItemBytes;
    ItemPlace(c, p, items, i);
    ItemWritten(c, p + 16 * i, items[i]);
  }

  lemma EmplaceNext(items: seq<Item>, i: nat)
    requires DistinctKeys(items) && i < |items|
    ensures Emplace(items[..i], items[i]) == items[..i + 1]
  {
    assert items[..i] + [items[i]] == items[..i + 1];
  }

  lemma ItemsUpTo(items: seq<Item>, i: nat)
    requires i < |items|
    ensures ItemsBytes(items[..i + 1]) == ItemsBytes(items[..i]) + ItemBytes(items[i])
  {
    assert items[..i + 1][..i] == items[..i];
  }

  lemma ItemPlace(c: seq<Octet>, p: nat, items: seq<Item>, i: nat)
    requires p + 16 * |items| <= |c| && c[p..p + 16 * |items|] == ItemsBytes(items) && i < |items|
    ensures c[p + 16 * i..p + 16 * i + 16] == ItemBytes(items[i])
  {
    hide ItemBytes, ItemsBytes;
    ItemsSplit(items, i + 1);
    ItemsUpTo(items, i);
    SliceOf(ItemsBytes(items[..i]), ItemBytes(items[i]), ItemsBytes(items[i + 1..]));
    SubSlice(c, p, p + 16 * |items|, 16 * i, 16 * i + 16);
  }

  /** Whatever follows it, a written index is read back whole and in order. */
  lemma IndexWritten(items: seq<Item>, rest: seq<Octet>)
    requires AllFit(items) && DistinctKeys(items)
    ensures ParseIndex(IndexBytes(items) + rest, 0) == Index(items)
  {
    hide LittleEndian, Value, Limit, ItemsBytes, AllFit, DistinctKeys, ParseItems;
    Limits();
    hide HeaderBytes, HeaderAt;
    var c := IndexBytes(items) + rest;
    var header, size, body := HeaderBytes(), LittleEndian(|items|, 8), ItemsBytes(items);
    assert c == header + (size + (body + rest)) && c == (header + size) + body + rest
      && c == header + size + (body + rest);
    assert c[..8] == header;
    HeaderWritten(c);
    SliceOf(header, size, body + rest);
    SliceOf(header + size, body, rest);
    assert |items| < TWO64 by { FewItems(items); }
    UintAt(c, 8, |items|, 8);
    assert items[..0] == [];
    ItemsWritten(c, 16, items, 0);
  }

  lemma FewItems(items: seq<Item>)
    requires AllFit(items)
    ensures |items| < TWO64
  {
  }

  lemma HeaderWritten(c: seq<Octet>)
    requires |c| >= 8 && c[..8] == HeaderBytes()
    ensures HeaderAt(c, 0)
  {
    hide LittleEndian, Value, Limit;
    Limits();
    var bs := HeaderBytes();
    assert c[0..8] == bs;
    SubSlice(c, 0, 8, 0, 4);
    SubSlice(c, 0, 8, 4, 6);
    SubSlice(c, 0, 8, 6, 8);
    assert bs[0..4] == LittleEndian(MAGIC, 4) && bs[4..6] == LittleEndian(MAJOR, 2)
      && bs[6..8] == LittleEndian(MINOR, 2);
    UintAt(c, 0, MAGIC, 4);
    UintAt(c, 4, MAJOR, 2);
    UintAt(c, 6, MINOR, 2);
  }
}
