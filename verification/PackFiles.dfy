/** Building a pack, exporting it and reading its files back. */
module PackFiles {
  import opened Basics
  import opened Bytes
  import opened ByteStreams
  import opened PackArchive
  import opened PackStream

  datatype File = File(key: nat, bytes: seq<Octet>)

  /** The files' bytes one after the other. */
  ghost function Blob(files: seq<File>): seq<Octet>
  {
    if files == [] then [] else Blob(files[..|files| - 1]) + files[|files| - 1].bytes
  }

  /** Where file `i` starts in the blob. */
  ghost function Before(files: seq<File>, i: nat): nat
    requires i <= |files|
  {
    |Blob(files[..i])|
  }

  lemma {:induction false} BlobSlice(files: seq<File>, i: nat)
    requires i < |files|
    ensures Before(files, i) + |files[i].bytes| <= |Blob(files)|
    ensures Blob(files)[Before(files, i)..Before(files, i) + |files[i].bytes|] == files[i].bytes
    decreases |files|
  {
    var most := files[..|files| - 1];
    if i == |files| - 1 {
      assert files[..i] == most;
    } else {
      BlobSlice(most, i);
      assert most[..i] == files[..i];
      var b, n := Before(files, i), |files[i].bytes|;
      assert Blob(files)[b..b + n] == Blob(most)[b..b + n];
    }
  }

  lemma BlobMore(files: seq<File>, f: File)
    ensures Blob(files + [f]) == Blob(files) + f.bytes
    ensures forall i :: 0 <= i <= |files| ==> Before(files + [f], i) == Before(files, i)
  {
    var more := files + [f];
    assert more[..|files|] == files;
    assert forall i :: 0 <= i <= |files| ==> more[..i] == files[..i];
  }

  /** Everything before the blob's bytes: header, index and the two sizes. */
  function Overhead(n: nat): nat
  {
    8 + (8 + n * 16) + 8
  }

  /** The entry of a file that starts at `at`, as 32-bit fields hold it. */
  function Stored(at: nat, size: nat): Entry
  {
    Entry(at % TWO32, size % TWO32)
  }

  ghost predicate Described(index: seq<Item>, files: seq<File>, shifts: seq<nat>)
  {
    && |index| == |files| == |shifts|
    && forall i :: 0 <= i < |files| ==>
        index[i] == Item(files[i].key, Stored(Before(files, i) + shifts[i], |files[i].bytes|))
  }

  class PackFileBuilder {
    var index: seq<Item>
    var data: seq<Octet>
    var currentOffset: nat
    /** The files added, and by how much earlier exports have already moved the offset of each. */
    ghost var files: seq<File>
    ghost var shifts: seq<nat>

    ghost predicate Valid()
      reads this
    {
      && Described(index, files, shifts)
      && data == Blob(files) && currentOffset == |data| % TWO32
      && DistinctKeys(index)
      && forall i :: 0 <= i < |files| ==> files[i].key < TWO64
    }

    constructor ()
      ensures Valid() && files == []
    {
      index, data, currentOffset := [], [], 0;
      files, shifts := [], [];
    }

    /** Adds a file under a new key; `source` is nothing when it cannot be read. */
    method AddFile(source: Option<seq<Octet>>, key: nat) returns (ok: bool)
      requires Valid() && key < TWO64
      modifies this
      ensures Valid() && ok == (source.Some? && !HasKey(old(index), key))
      ensures ok ==> files == old(files) + [File(key, source.value)] && shifts == old(shifts) + [0]
      ensures !ok ==> files == old(files) && shifts == old(shifts) && index == old(index)
    {
      hide Blob, Stored;
      if source == None || HasKey(index, key) {
        return false;
      }
      var bytes := source.value;
      var size := |bytes| % TWO32;
      BlobMore(files, File(key, bytes));
      OffsetAdds(|data|, |bytes|);
      StoredIs(|data|, |bytes|);
      data := data + bytes;
      index := index + [Item(key, Entry(currentOffset, size))];
      currentOffset := (currentOffset + size) % TWO32;
      AddDescribes(index[..|index| - 1], files, shifts, key, bytes, index);
      files := files + [File(key, bytes)];
      shifts := shifts + [0];
      ok := true;
    }

    method ExportSizeBytes() returns (n: nat)
      ensures n == Overhead(|index|) + |data|
      ensures n == |IndexBytes(index) + BlobBytes(data)|
    {
      var mapSize := 8 + |index| * (8 + 8);
      var blobSize := 8 + |data|;
      n := 8 + mapSize + blobSize;
    }

    /** Moves every offset behind the index and writes the pack file. */
    method ExportPack(out: OutStream) returns (ok: bool)
      requires Valid()
      modifies this`index, this`shifts, out
      ensures Valid()
      ensures |shifts| == |old(shifts)|
        && forall i :: 0 <= i < |shifts| ==> shifts[i] == old(shifts)[i] + Overhead(|index|)
      ensures ok == out.good
      ensures Sent(old(out.bytes), old(out.good), out.bytes, out.good, out.room, IndexBytes(index) + BlobBytes(data))
    {
      hide Sent, Blob, Described, IndexBytes, BlobBytes;
      var total := ExportSizeBytes();
      var initial := total - |data|;
      MoveOffsets(initial);
      ghost var s0, g0 := out.bytes, out.good;
      ok := WriteIndex(out, index);
      ghost var s1, g1 := out.bytes, out.good;
      if !ok {
        SentFailed(s0, g0, s1, out.room, IndexBytes(index), BlobBytes(data));
        return;
      }
      ok := WriteBlob(out, data);
      SentJoin(s0, g0, s1, g1, out.bytes, out.good, out.room, IndexBytes(index), BlobBytes(data));
    }

    method MoveOffsets(delta: nat)
      requires Valid()
      modifies this`index, this`shifts
      ensures Valid() && |index| == |old(index)|
      ensures |shifts| == |old(shifts)| && forall i :: 0 <= i < |shifts| ==> shifts[i] == old(shifts)[i] + delta
    {
      hide Blob;
      ghost var was := index;
      for i := 0 to |index|
        modifies this`index
        invariant |index| == |was|
        invariant forall j :: 0 <= j < i ==> index[j] == Moved(was[j], delta)
        invariant forall j :: i <= j < |was| ==> index[j] == was[j]
      {
        index := index[i := Moved(index[i], delta)];
      }
      ghost var less := shifts;
      ghost var more: seq<nat> := seq(|less|, i requires 0 <= i < |less| => less[i] + delta);
      MovedDescribes(was, files, shifts, delta, index, more);
      shifts := more;
    }
  }

  /** A 32-bit offset moved; the sum wraps. */
  function Moved(it: Item, delta: nat): Item
  {
    it.(entry := it.entry.(offset := (it.entry.offset + delta) % TWO32))
  }

  lemma OffsetAdds(a: nat, b: nat)
    ensures (a % TWO32 + b % TWO32) % TWO32 == (a + b) % TWO32
  {
  }

  lemma OffsetMoves(a: nat, b: nat)
    ensures (a % TWO32 + b) % TWO32 == (a + b) % TWO32
  {
  }

  lemma StoredIs(at: nat, size: nat)
    ensures Stored(at, size) == Entry(at % TWO32, size % TWO32)
  {
  }

  lemma {:induction false} AddDescribes(index: seq<Item>, files: seq<File>, shifts: seq<nat>, key: nat,
      bytes: seq<Octet>, next: seq<Item>)
    requires Described(index, files, shifts) && next == index + [Item(key, Stored(|Blob(files)|, |bytes|))]
    ensures Described(next, files + [File(key, bytes)], shifts + [0])
  {
    hide Stored, Blob;
    var files', shifts' := files + [File(key, bytes)], shifts + [0];
    BlobMore(files, File(key, bytes));
    assert files[..|files|] == files;
    forall i | 0 <= i < |files'|
      ensures next[i] == Item(files'[i].key, Stored(Before(files', i) + shifts'[i], |files'[i].bytes|))
    {
      assert Before(files', i) == Before(files, i);
      if i < |files| {
        assert next[i] == index[i] && files'[i] == files[i] && shifts'[i] == shifts[i];
      }
    }
  }

  lemma {:induction false} MovedDescribes(was: seq<Item>, files: seq<File>, shifts: seq<nat>, delta: nat,
      index: seq<Item>, more: seq<nat>)
    requires Described(was, files, shifts) && |index| == |was| && |more| == |shifts|
    requires forall j :: 0 <= j < |was| ==> index[j] == Moved(was[j], delta)
    requires forall j :: 0 <= j < |was| ==> more[j] == shifts[j] + delta
    requires DistinctKeys(was)
    ensures Described(index, files, more) && DistinctKeys(index)
  {
    forall i | 0 <= i < |files|
      ensures index[i] == Item(files[i].key, Stored(Before(files, i) + more[i], |files[i].bytes|))
    {
      OffsetMoves(Before(files, i) + shifts[i], delta);
    }
  }

  // ---- The exported offsets ----

  ghost function Pack(index: seq<Item>, data: seq<Octet>): (c: seq<Octet>)
    ensures |c| == Overhead(|index|) + |data|
  {
    IndexBytes(index) + BlobBytes(data)
  }

  /** The entry points at the file: right place, right size. */
  ghost predicate PointsAt(e: Entry, files: seq<File>, i: nat)
    requires i < |files|
  {
    e == Entry(Overhead(|files|) + Before(files, i), |files[i].bytes|)
  }

  /**
   * In a pack below 4 GiB an exported entry is right exactly when the entry had not been moved before
   * (or by a multiple of 2^32): `moved` is what earlier exports had added to it.
   */
  lemma {:induction false} EntryRight(index: seq<Item>, files: seq<File>, shifts: seq<nat>, i: nat, moved: nat)
    requires Described(index, files, shifts) && i < |files| && shifts[i] == moved + Overhead(|files|)
    requires Overhead(|files|) + |Blob(files)| < TWO32
    ensures PointsAt(index[i].entry, files, i) <==> moved % TWO32 == 0
  {
    hide Blob;
    BlobSlice(files, i);
    var at := Overhead(|files|) + Before(files, i);
    Wraps(at, moved);
    Small(|files[i].bytes|);
  }

  lemma Wraps(at: nat, moved: nat)
    requires at < TWO32
    ensures (at + moved) % TWO32 == at <==> moved % TWO32 == 0
  {
    var q, m := moved / TWO32, moved % TWO32;
    assert at + moved == TWO32 * q + (at + m);
    if at + m < TWO32 {
      ModOf(at + moved, q, at + m);
    } else {
      ModOf(at + moved, q + 1, at + m - TWO32);
    }
  }

  lemma ModOf(x: nat, q: nat, r: nat)
    requires x == TWO32 * q + r && r < TWO32
    ensures x % TWO32 == r
  {
  }

  lemma Small(n: nat)
    requires n < TWO32
    ensures n % TWO32 == n
  {
  }

  /** A file already exported once is misplaced by the next export. */
  lemma {:induction false} SecondExportMisplaces(index: seq<Item>, files: seq<File>, shifts: seq<nat>, i: nat)
    requires Described(index, files, shifts) && i < |files| && shifts[i] == 2 * Overhead(|files|)
    requires Overhead(|files|) + |Blob(files)| < TWO32
    ensures !PointsAt(index[i].entry, files, i)
  {
    hide Blob, Described;
    BlobSlice(files, i);
    EntryRight(index, files, shifts, i, Overhead(|files|));
    if Overhead(|files|) < TWO32 {
      Small(Overhead(|files|));
    }
  }

  /** The window a right entry describes holds the file's bytes. */
  lemma {:induction false} WindowHoldsFile(index: seq<Item>, files: seq<File>, i: nat)
    requires |index| == |files| && i < |files| && PointsAt(index[i].entry, files, i)
    ensures var e := index[i].entry;
      && e.offset + e.size <= |Pack(index, Blob(files))|
      && Pack(index, Blob(files))[e.offset..e.offset + e.size] == files[i].bytes
  {
    hide Blob, IndexBytes, Before;
    BlobSlice(files, i);
    var data := Blob(files);
    var c, e := Pack(index, data), index[i].entry;
    var front := IndexBytes(index) + LittleEndian(|data|, 8);
    assert c == front + data && |front| == Overhead(|files|);
    var b := Before(files, i);
    assert c[e.offset..e.offset + e.size] == data[b..b + e.size];
  }

  // ---- Reading a pack ----

  class PackFile {
    const base: InStream
    const index: seq<Item>

    /** Reads the index at the start of the stream, which has to be a pack. */
    constructor (base: InStream)
      requires base.Valid() && base.good && ParseIndex(base.contents, base.pos).Index?
      modifies base
      ensures this.base == base && Index(index) == old(ParseIndex(base.contents, base.pos))
      ensures base.Valid() && base.good
    {
      hide ParseIndex;
      this.base := base;
      var r := ReadIndex(base);
      index := r.items;
    }

    method Find(key: nat) returns (at: nat)
      ensures at <= |index| && (at < |index| ==> index[at].key == key)
      ensures at == |index| <==> !HasKey(index, key)
    {
      at := 0;
      while at < |index| && index[at].key != key
        invariant at <= |index| && forall j :: 0 <= j < at ==> index[j].key != key
      {
        at := at + 1;
      }
    }

    /** A stream over the file of a key, or nothing for an unknown key. */
    method GetInputStream(key: nat) returns (s: Option<PackFileStream>, ghost at: nat)
      requires base.Valid() && base.good
      requires forall i :: 0 <= i < |index| ==> index[i].entry.offset + index[i].entry.size <= |base.contents|
      modifies base
      ensures s.Some? <==> HasKey(index, key)
      ensures s.Some? ==> at < |index| && index[at].key == key && Opened(s.value, base, index[at].entry)
      ensures s.Some? ==> fresh(s.value) && fresh(s.value.buffer) && s.value.Valid() && s.value.Tell() == 0
    {
      var i := Find(key);
      at := i;
      s := None;
      if i < |index| {
        var stream := new PackFileStream(base, index[i].entry.offset, index[i].entry.size, BUFFER);
        s := Some(stream);
      }
    }
  }

  const BUFFER := 1024

  ghost predicate Opened(s: PackFileStream, base: InStream, e: Entry)
  {
    s.base == base && s.start == e.offset && s.size == e.size
  }

  // ---- The whole pipeline ----

  ghost predicate DistinctFiles(files: seq<File>)
  {
    forall i, j :: 0 <= i < j < |files| ==> files[i].key != files[j].key
  }

  ghost predicate ValidKeys(files: seq<File>)
  {
    forall i :: 0 <= i < |files| ==> files[i].key < TWO64
  }

  method Build(files: seq<File>) returns (b: PackFileBuilder)
    requires DistinctFiles(files) && ValidKeys(files)
    ensures fresh(b) && b.Valid() && b.files == files
    ensures forall i :: 0 <= i < |b.shifts| ==> b.shifts[i] == 0
  {
    hide Blob, Stored;
    b := new PackFileBuilder();
    for i := 0 to |files|
      invariant fresh(b) && b.Valid() && b.files == files[..i]
      invariant forall j :: 0 <= j < |b.shifts| ==> b.shifts[j] == 0
    {
      KeyIsNew(b.index, b.files, b.shifts, files, i);
      var ok := b.AddFile(Some(files[i].bytes), files[i].key);
      assert files[..i] + [files[i]] == files[..i + 1];
    }
    assert files[..|files|] == files;
  }

  lemma {:induction false} KeyIsNew(index: seq<Item>, done: seq<File>, shifts: seq<nat>, files: seq<File>, i: nat)
    requires Described(index, done, shifts) && i < |files| && done == files[..i] && DistinctFiles(files)
    ensures !HasKey(index, files[i].key)
  {
  }

  /** Everything `Described` says about a first export of small enough files. */
  lemma {:induction false} FirstExport(index: seq<Item>, files: seq<File>, shifts: seq<nat>)
    requires Described(index, files, shifts) && ValidKeys(files) && Overhead(|files|) + |Blob(files)| < TWO32
    requires forall i :: 0 <= i < |shifts| ==> shifts[i] == Overhead(|files|)
    ensures AllFit(index)
    ensures forall i :: 0 <= i < |index| ==> index[i].key == files[i].key && PointsAt(index[i].entry, files, i)
  {
    hide Blob, PointsAt, Before;
    forall i | 0 <= i < |index|
      ensures PointsAt(index[i].entry, files, i) && Fits(index[i])
    {
      EntryRight(index, files, shifts, i, 0);
    }
  }

  /** Builds a pack of the files, writes it, and opens it again. */
  method Repack(files: seq<File>) returns (p: PackFile)
    requires DistinctFiles(files) && ValidKeys(files) && Overhead(|files|) + |Blob(files)| < TWO32
    ensures fresh(p) && fresh(p.base) && p.base.Valid() && p.base.good
    ensures |p.index| == |files| && p.base.contents == Pack(p.index, Blob(files))
    ensures forall i :: 0 <= i < |files| ==> p.index[i].key == files[i].key && PointsAt(p.index[i].entry, files, i)
  {
    hide Blob, Described, IndexBytes, BlobBytes, ParseIndex, PointsAt, AllFit, DistinctKeys, Overhead;
    var b := Build(files);
    DescribedSizes(b.index, files, b.shifts);
    var room := b.ExportSizeBytes();
    var out := new OutStream(room);
    var ok := b.ExportPack(out);
    DescribedSizes(b.index, files, b.shifts);
    assert out.bytes == Pack(b.index, Blob(files));
    FirstExport(b.index, files, b.shifts);
    IndexWritten(b.index, BlobBytes(b.data));
    var in_ := new InStream(out.bytes);
    p := new PackFile(in_);
  }

  lemma {:induction false} DescribedSizes(index: seq<Item>, files: seq<File>, shifts: seq<nat>)
    requires Described(index, files, shifts)
    ensures |index| == |files| == |shifts|
  {
  }

  /** The bytes stored under a key. */
  ghost function FileOf(files: seq<File>, key: nat): Option<seq<Octet>>
  {
    if files == [] then None
    else if files[|files| - 1].key == key then Some(files[|files| - 1].bytes)
    else FileOf(files[..|files| - 1], key)
  }

  lemma {:induction false} FileOfAt(files: seq<File>, i: nat)
    requires DistinctFiles(files) && i < |files|
    ensures FileOf(files, files[i].key) == Some(files[i].bytes)
    decreases |files|
  {
    if i < |files| - 1 {
      assert files[i].key != files[|files| - 1].key;
      FileOfAt(files[..|files| - 1], i);
    }
  }

  lemma {:induction false} FileOfMissing(files: seq<File>, key: nat)
    requires forall i :: 0 <= i < |files| ==> files[i].key != key
    ensures FileOf(files, key) == None
  {
    if files != [] {
      FileOfMissing(files[..|files| - 1], key);
    }
  }

  /**
   * From files to a pack and back: for every key, any mix of reads and seeks on the stream of a pack file is
   * answered as from the file itself, and an unknown key has no stream.
   */
  method PackAndServe(files: seq<File>, key: nat, qs: seq<Request>) returns (answers: Option<seq<Answer>>)
    requires DistinctFiles(files) && ValidKeys(files) && Overhead(|files|) + |Blob(files)| < TWO32
    ensures answers == match FileOf(files, key)
      case None => None
      case Some(bytes) => Some(PlainRun(bytes, 0, qs).0)
  {
    hide Blob, PlainRun, FileOf, PointsAt, Pack;
    var p := Repack(files);
    forall i | 0 <= i < |p.index|
      ensures p.index[i].entry.offset + p.index[i].entry.size <= |p.base.contents|
    {
      WindowHoldsFile(p.index, files, i);
    }
    var s, at := p.GetInputStream(key);
    if s == None {
      FileOfMissing(files, key);
      return None;
    }
    WindowHoldsFile(p.index, files, at);
    FileOfAt(files, at);
    var r := ServeAll(s.value, qs);
    answers := Some(r);
  }
}
