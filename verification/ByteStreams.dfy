/** Byte streams: a sink that may run out of room, and a seekable source. */
module ByteStreams {
  import opened Bytes

  /** The effect of sending `bs` to a sink: all of it, or a failure that sticks. */
  ghost predicate Sent(was: seq<Octet>, wasGood: bool, now: seq<Octet>, good: bool, room: nat, bs: seq<Octet>)
  {
    && was <= now
    && good == (wasGood && |was| + |bs| <= room)
    && (good ==> now == was + bs)
  }

  lemma SentJoin(s0: seq<Octet>, g0: bool, s1: seq<Octet>, g1: bool, s2: seq<Octet>, g2: bool, room: nat,
      a: seq<Octet>, b: seq<Octet>)
    requires Sent(s0, g0, s1, g1, room, a) && Sent(s1, g1, s2, g2, room, b)
    ensures Sent(s0, g0, s2, g2, room, a + b)
  {
    assert g2 ==> s2 == s0 + (a + b);
  }

  /** A failure on the way is a failure of the whole. */
  lemma SentFailed(s0: seq<Octet>, g0: bool, s1: seq<Octet>, room: nat, a: seq<Octet>, b: seq<Octet>)
    requires Sent(s0, g0, s1, false, room, a)
    ensures Sent(s0, g0, s1, false, room, a + b)
  {
  }

  class OutStream {
    const room: nat
    var bytes: seq<Octet>
    var good: bool

    constructor (room: nat)
      ensures bytes == [] && good && this.room == room
    {
      this.room := room;
      bytes, good := [], true;
    }

    /** Appends the bytes; without room for all of them only what fits is taken and the stream goes bad. */
    method Write(bs: seq<Octet>) returns (ok: bool)
      modifies this
      ensures ok == good && Sent(old(bytes), old(good), bytes, good, room, bs)
    {
      if good {
        if |bytes| + |bs| <= room {
          bytes := bytes + bs;
        } else {
          if |bytes| < room {
            bytes := bytes + bs[..room - |bytes|];
          }
          good := false;
        }
      }
      ok := good;
    }

    method WriteUint(v: nat, n: nat) returns (ok: bool)
      modifies this
      ensures ok == good && Sent(old(bytes), old(good), bytes, good, room, LittleEndian(v, n))
    {
      ok := Write(LittleEndian(v, n));
    }
  }

  class InStream {
    const contents: seq<Octet>
    var pos: nat
    var good: bool

    ghost predicate Valid()
      reads this
    {
      pos <= |contents|
    }

    constructor (contents: seq<Octet>)
      ensures Valid() && pos == 0 && good && this.contents == contents
    {
      this.contents := contents;
      pos, good := 0, true;
    }

    /** Reads `n` bytes; at the end of the source it reads what is left and the stream goes bad. */
    method Read(n: nat) returns (bs: seq<Octet>)
      requires Valid()
      modifies this
      ensures Valid() && good == (old(good) && old(pos) + n <= |contents|)
      ensures old(pos) <= pos && bs == contents[old(pos)..pos]
      ensures good ==> pos == old(pos) + n
    {
      bs := [];
      if good {
        var end := if pos + n <= |contents| then pos + n else |contents|;
        good := pos + n <= |contents|;
        bs := contents[pos..end];
        pos := end;
      }
    }

    method ReadUint(n: nat) returns (ok: bool, v: nat)
      requires Valid()
      modifies this
      ensures Valid() && ok == good && good == (old(good) && old(pos) + n <= |contents|)
      ensures ok ==> pos == old(pos) + n && v == Value(contents[old(pos)..pos])
    {
      var bs := Read(n);
      ok, v := good, Value(bs);
    }

    /** Moves the read position; a bad stream does not move. */
    method Seek(to: nat)
      requires Valid() && to <= |contents|
      modifies this
      ensures Valid() && good == old(good) && pos == if good then to else old(pos)
    {
      if good { pos := to; }
    }
  }
}
