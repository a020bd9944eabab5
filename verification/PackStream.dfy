/** A read-only stream over a window of a base stream, with its own buffer. */
module PackStream {
  import opened Basics
  import opened Bytes
  import opened ByteStreams

  datatype Whence = Begin | Current | End

  class PackFileStream {
    const base: InStream
    const start: nat
    const size: nat
    const buffer: array<Octet>
    /** The unread part of the buffer is `buffer[cur..end]`. */
    var cur: nat
    var end: nat

    ghost predicate Valid()
      reads this, base, buffer
    {
      && base.Valid() && base.good && start + size <= |base.contents|
      && 0 < buffer.Length && cur <= end <= buffer.Length
      && start + (end - cur) <= base.pos <= start + size
      && buffer[cur..end] == base.contents[base.pos - (end - cur)..base.pos]
    }

    /** The bytes of the window. */
    ghost function File(): seq<Octet>
      requires start + size <= |base.contents|
    {
      base.contents[start..start + size]
    }

    /** The position of the next byte in the window. */
    ghost function Tell(): (p: nat)
      requires Valid()
      reads this, base, buffer
      ensures p <= size
    {
      base.pos - (end - cur) - start
    }

    constructor (base: InStream, start: nat, size: nat, bufferSize: nat)
      requires base.Valid() && base.good && start + size <= |base.contents| && bufferSize > 0
      modifies base
      ensures Valid() && Tell() == 0 && this.base == base && this.start == start && this.size == size && fresh(buffer)
    {
      this.base, this.start, this.size := base, start, size;
      buffer := new Octet[bufferSize](_ => 0);
      cur, end := 0, 0;
      new;
      base.Seek(start);
    }

    /** Fills the get area from the base stream, never past the end of the window. */
    method Fill(n: nat)
      requires Valid() && cur == end && n <= buffer.Length && base.pos + n <= start + size
      modifies this`cur, this`end, buffer, base
      ensures Valid() && Tell() == old(Tell()) && cur == 0 && end == n
    {
      var bs := base.Read(n);
      forall i | 0 <= i < n { buffer[i] := bs[i]; }
      cur, end := 0, n;
      assert buffer[0..n] == bs;
    }

    /** The next byte without taking it, or nothing at the end of the window. */
    method Underflow() returns (c: Option<Octet>)
      requires Valid()
      modifies this`cur, this`end, buffer, base
      ensures Valid() && Tell() == old(Tell())
      ensures c == if Tell() < size then Some(File()[Tell()]) else None
      ensures c.Some? ==> cur < end
    {
      if cur == end {
        var n := size - (base.pos - start);
        if buffer.Length < n { n := buffer.Length; }
        if n <= 0 { return None; }
        Fill(n);
      }
      Front();
      c := Some(buffer[cur]);
    }

    lemma Front()
      requires Valid() && cur < end
      ensures Tell() < size && buffer[cur] == File()[Tell()]
    {
      assert buffer[cur] == buffer[cur..end][0];
    }

    /** Takes the next byte. */
    method Next() returns (c: Option<Octet>)
      requires Valid()
      modifies this`cur, this`end, buffer, base
      ensures Valid()
      ensures old(Tell()) < size ==> c == Some(File()[old(Tell())]) && Tell() == old(Tell()) + 1
      ensures old(Tell()) == size ==> c == None && Tell() == size
    {
      c := Underflow();
      if c.Some? {
        assert buffer[cur + 1..end] == buffer[cur..end][1..];
        cur := cur + 1;
      }
    }

    /** Up to `n` bytes from the current position, in as many refills as it takes. */
    method Read(n: nat) returns (bs: seq<Octet>)
      requires Valid()
      modifies this`cur, this`end, buffer, base
      ensures Valid() && Tell() == Min(old(Tell()) + n, size)
      ensures bs == File()[old(Tell())..Tell()]
    {
      bs := [];
      ghost var from := Tell();
      while |bs| < n
        invariant |bs| <= n && Valid() && Tell() == from + |bs| && bs == File()[from..from + |bs|]
        decreases n - |bs|
      {
        var c := Next();
        if c == None { return; }
        bs := bs + [c.value];
      }
    }

    /** Moves to a position inside the window or at its end; any other target is refused and changes nothing. */
    method SeekOff(off: int, whence: Whence, input: bool) returns (r: int)
      requires Valid()
      modifies this`cur, this`end, base
      ensures Valid()
      ensures var target := off + (match whence case Begin => 0 case Current => old(Tell()) case End => size);
        if input && 0 <= target <= size then r == target && Tell() == target
        else r == -1 && Tell() == old(Tell()) && cur == old(cur) && end == old(end) && base.pos == old(base.pos)
    {
      if !input { return -1; }
      var to: int := match whence
        case Begin => start + off
        case Current => base.pos - (end - cur) + off
        case End => start + size + off;
      if to < start || to > start + size { return -1; }
      base.Seek(to);
      cur, end := 0, 0;
      r := to - start;
    }

    method SeekPos(pos: int, input: bool) returns (r: int)
      requires Valid()
      modifies this`cur, this`end, base
      ensures Valid()
      ensures if input && 0 <= pos <= size then r == pos && Tell() == pos else r == -1 && Tell() == old(Tell())
    {
      r := SeekOff(pos, Begin, input);
    }
  }

  function Min(a: nat, b: nat): nat { if a < b then a else b }

  // ---- Runs ----

  datatype Request = Get | Peek | ReadSome(n: nat) | SeekTo(off: int, whence: Whence)

  datatype Answer = Byte(c: Option<Octet>) | Chunk(bs: seq<Octet>) | Position(p: int)

  /** What a plain in-memory file answers. */
  ghost function PlainFile(file: seq<Octet>, p: nat, q: Request): (r: (Answer, nat))
    requires p <= |file|
    ensures r.1 <= |file|
  {
    match q
    case Get => if p < |file| then (Byte(Some(file[p])), p + 1) else (Byte(None), p)
    case Peek => (Byte(if p < |file| then Some(file[p]) else None), p)
    case ReadSome(n) => (Chunk(file[p..Min(p + n, |file|)]), Min(p + n, |file|))
    case SeekTo(off, whence) =>
      var target := off + (match whence case Begin => 0 case Current => p case End => |file|);
      if 0 <= target <= |file| then (Position(target), target) else (Position(-1), p)
  }

  ghost function PlainRun(file: seq<Octet>, p: nat, qs: seq<Request>): (r: (seq<Answer>, nat))
    requires p <= |file|
    ensures |r.0| == |qs| && r.1 <= |file|
  {
    if qs == [] then ([], p)
    else
      var before := PlainRun(file, p, qs[..|qs| - 1]);
      var last := PlainFile(file, before.1, qs[|qs| - 1]);
      (before.0 + [last.0], last.1)
  }

  /** Whichever way it is reached, place `k` of the file holds its byte `k`; past the end there is none. */
  lemma ByteAtPlace(file: seq<Octet>, p: nat, k: nat)
    requires p <= |file| && k <= |file|
    ensures var there := [Position(k), Byte(if k < |file| then Some(file[k]) else None)];
      && PlainRun(file, p, [SeekTo(k, Begin), Get]).0 == there
      && PlainRun(file, p, [SeekTo(k - p, Current), Get]).0 == there
      && PlainRun(file, p, [SeekTo(k - |file|, End), Get]).0 == there
  {
    TwoRequests(file, p, SeekTo(k, Begin), Get);
    TwoRequests(file, p, SeekTo(k - p, Current), Get);
    TwoRequests(file, p, SeekTo(k - |file|, End), Get);
  }

  lemma TwoRequests(file: seq<Octet>, p: nat, q: Request, r: Request)
    requires p <= |file|
    ensures var a := PlainFile(file, p, q); var b := PlainFile(file, a.1, r);
      PlainRun(file, p, [q, r]) == ([a.0, b.0], b.1)
  {
    hide PlainFile;
    var one, two := [q], [q, r];
    assert one[..|one| - 1] == [] && two[..|two| - 1] == one;
    var a := PlainFile(file, p, q);
    var b := PlainFile(file, a.1, r);
    assert PlainRun(file, p, []) == ([], p) && [] + [a.0] == [a.0] && [a.0] + [b.0] == [a.0, b.0];
    assert PlainRun(file, p, one) == ([a.0], a.1);
    assert PlainRun(file, p, two) == ([a.0] + [b.0], b.1);
  }

  /** Reading `n` bytes at once is reading them one by one. */
  lemma {:induction false} OneByOne(file: seq<Octet>, p: nat, n: nat)
    requires p <= |file|
    ensures var (answers, q) := PlainRun(file, p, seq(n, i => Get)); var (chunk, r) := PlainFile(file, p, ReadSome(n));
      && q == r && chunk.Chunk? && |chunk.bs| <= n
      && forall i :: 0 <= i < n ==> answers[i] == Byte(if i < |chunk.bs| then Some(chunk.bs[i]) else None)
  {
    if n > 0 {
      OneByOne(file, p, n - 1);
      assert seq(n, i => Get)[..n - 1] == seq(n - 1, i => Get);
    }
  }

  method Serve(s: PackFileStream, q: Request) returns (a: Answer)
    requires s.Valid()
    modifies s`cur, s`end, s.buffer, s.base
    ensures s.Valid() && PlainFile(s.File(), old(s.Tell()), q) == (a, s.Tell())
  {
    match q
    case Get =>
      var c := s.Next();
      a := Byte(c);
    case Peek =>
      var c := s.Underflow();
      a := Byte(c);
    case ReadSome(n) =>
      var bs := s.Read(n);
      a := Chunk(bs);
    case SeekTo(off, whence) =>
      var p := s.SeekOff(off, whence, true);
      a := Position(p);
  }

  /** Any mix of reads and seeks answers as the file's bytes held in memory would. */
  method ServeAll(s: PackFileStream, qs: seq<Request>) returns (answers: seq<Answer>)
    requires s.Valid()
    modifies s`cur, s`end, s.buffer, s.base
    ensures s.Valid() && PlainRun(s.File(), old(s.Tell()), qs) == (answers, s.Tell())
  {
    hide PlainFile;
    answers := [];
    ghost var from := s.Tell();
    for i := 0 to |qs|
      invariant s.Valid() && PlainRun(s.File(), from, qs[..i]) == (answers, s.Tell())
    {
      var a := Serve(s, qs[i]);
      assert qs[..i + 1][..i] == qs[..i];
      answers := answers + [a];
    }
    assert qs[..|qs|] == qs;
  }
}
