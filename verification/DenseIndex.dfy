/** The bucket index of the hash table: robin-hood placement over a ring of buckets. A bucket holds the
    distance from its entry's home bucket, counted from one and paired with a one-byte fingerprint, and the
    entry's position in the dense value vector. */
module DenseIndex {
  import opened Basics

  const INC := 256

  datatype Bucket = Bucket(daf: int, idx: int)

  const EMPTY := Bucket(0, 0)

  /** What the hash of a key decides: its home bucket and its fingerprint. */
  datatype Tag = Tag(home: int, fp: int)

  // ---- The ring ----

  function Next(n: int, i: int): int { if i + 1 == n then 0 else i + 1 }

  function Prev(n: int, i: int): int { if i == 0 then n - 1 else i - 1 }

  /** The bucket `t` places after `h`. */
  function At(n: int, h: int, t: int): int { if h + t < n then h + t else h + t - n }

  /** How many places `i` lies after `h`. */
  function Dist(n: int, h: int, i: int): int { if h <= i then i - h else i - h + n }

  /** Distance-and-fingerprint of an entry `t` places after its home. */
  function Probe(tag: Tag, t: int): int { (t + 1) * INC + tag.fp }

  // ---- The invariant ----

  ghost predicate TagOk(n: int, tag: Tag) { 0 <= tag.home < n && 0 <= tag.fp < INC }

  ghost predicate TagsOk(n: int, tags: seq<Tag>)
  {
    forall x :: 0 <= x < |tags| ==> TagOk(n, tags[x])
  }

  /** A bucket is empty and zeroed, or holds the entry that `pos` says is there. `hole` is an entry that has
      no bucket for the moment. */
  ghost predicate SlotOk(bs: seq<Bucket>, tags: seq<Tag>, pos: seq<int>, hole: int, i: int)
    requires 0 <= i < |bs| && |pos| == |tags|
  {
    var b := bs[i];
    if b.daf == 0 then b.idx == 0
    else 0 <= b.idx < |tags| && b.idx != hole && pos[b.idx] == i
         && b.daf == Probe(tags[b.idx], Dist(|bs|, tags[b.idx].home, i))
  }

  /** Entry `x` has its bucket. */
  ghost predicate EntryOk(bs: seq<Bucket>, pos: seq<int>, x: int)
    requires 0 <= x < |pos|
  {
    0 <= pos[x] < |bs| && bs[pos[x]].daf != 0 && bs[pos[x]].idx == x
  }

  /** After an empty bucket comes an empty one or one at its home; elsewhere distances grow by at most one. */
  ghost predicate Follows(a: int, b: int)
  {
    if a == 0 then b < 2 * INC else b <= a + INC
  }

  ghost predicate OrderedAt(bs: seq<Bucket>, i: int)
    requires 0 <= i < |bs|
  {
    Follows(bs[i].daf, bs[Next(|bs|, i)].daf)
  }

  ghost predicate Slots(bs: seq<Bucket>, tags: seq<Tag>, pos: seq<int>, hole: int)
    requires |pos| == |tags|
  {
    forall i :: 0 <= i < |bs| ==> SlotOk(bs, tags, pos, hole, i)
  }

  ghost predicate Entries(bs: seq<Bucket>, pos: seq<int>, hole: int)
  {
    forall x :: 0 <= x < |pos| && x != hole ==> EntryOk(bs, pos, x)
  }

  ghost predicate Ordered(bs: seq<Bucket>)
  {
    forall i :: 0 <= i < |bs| ==> OrderedAt(bs, i)
  }

  ghost predicate Indexed(bs: seq<Bucket>, tags: seq<Tag>, pos: seq<int>, hole: int)
  {
    && |bs| > 0 && |pos| == |tags| && TagsOk(|bs|, tags)
    && Slots(bs, tags, pos, hole) && Entries(bs, pos, hole) && Ordered(bs)
  }

  // ---- Probing ----

  /** Between an entry's home and its bucket no bucket is behind the probe: so none is empty, and a probe that
      has overtaken a bucket can never meet its key later. */
  lemma {:induction false} NotOvertaken(bs: seq<Bucket>, tags: seq<Tag>, pos: seq<int>, hole: int, x: int, t: int)
    requires Indexed(bs, tags, pos, hole) && 0 <= x < |tags| && x != hole
    requires 0 <= t <= Dist(|bs|, tags[x].home, pos[x])
    ensures EntryOk(bs, pos, x) && 0 <= At(|bs|, tags[x].home, t) < |bs|
    ensures Probe(tags[x], t) <= bs[At(|bs|, tags[x].home, t)].daf
    ensures t == Dist(|bs|, tags[x].home, pos[x]) ==>
      At(|bs|, tags[x].home, t) == pos[x] && Probe(tags[x], t) == bs[pos[x]].daf
    decreases Dist(|bs|, tags[x].home, pos[x]) - t
  {
    var n := |bs|;
    assert EntryOk(bs, pos, x) && TagOk(n, tags[x]);
    assert SlotOk(bs, tags, pos, hole, pos[x]);
    if t < Dist(n, tags[x].home, pos[x]) {
      NotOvertaken(bs, tags, pos, hole, x, t + 1);
      var i := At(n, tags[x].home, t);
      assert OrderedAt(bs, i) && Next(n, i) == At(n, tags[x].home, t + 1);
    }
  }

  /** Two entries never share a bucket, so with fewer entries than buckets some bucket is empty. */
  lemma {:induction false} Uncovered(n: int, pos: seq<int>) returns (e: int)
    requires |pos| < n
    ensures 0 <= e < n && e !in pos
  {
    var used := set x | x in pos;
    var all := Range(n);
    RangeSize(pos);
    if all <= used {
      Subset(all, used);
      assert false;
    }
    e :| e in all && e !in used;
  }

  lemma {:induction false} RangeSize(s: seq<int>)
    ensures |(set x | x in s)| <= |s|
  {
    if s != [] {
      RangeSize(s[1..]);
      assert s == [s[0]] + s[1..];
      assert (set x | x in s) == (set x | x in s[1..]) + {s[0]};
    }
  }

  lemma Subset(a: set<int>, b: set<int>)
    requires a <= b
    ensures |a| <= |b|
  {
    assert b == a + (b - a);
  }

  lemma EmptyBucket(bs: seq<Bucket>, tags: seq<Tag>, pos: seq<int>, hole: int) returns (e: int)
    requires Indexed(bs, tags, pos, hole) && |tags| < |bs|
    ensures 0 <= e < |bs| && bs[e].daf == 0
  {
    e := Uncovered(|bs|, pos);
    assert SlotOk(bs, tags, pos, hole, e);
  }

  /** While an empty bucket is left no entry is a whole turn away from its home. */
  lemma NotFullTurn(bs: seq<Bucket>, tags: seq<Tag>, pos: seq<int>, hole: int, e: int, i: int)
    requires Indexed(bs, tags, pos, hole) && 0 <= e < |bs| && bs[e].daf == 0 && 0 <= i < |bs| && bs[i].daf != 0
    ensures 0 <= bs[i].idx < |tags| && Dist(|bs|, tags[bs[i].idx].home, i) < |bs| - 1
  {
    var n := |bs|;
    assert SlotOk(bs, tags, pos, hole, i);
    var x := bs[i].idx;
    assert TagOk(n, tags[x]);
    assert At(n, tags[x].home, Dist(n, tags[x].home, e)) == e;
    if Dist(n, tags[x].home, i) == n - 1 {
      NotOvertaken(bs, tags, pos, hole, x, Dist(n, tags[x].home, e));
    }
  }

  // ---- Insertion: place and shift up ----

  /** The first empty bucket at or after `place` is `d` places on. */
  ghost predicate FirstEmpty(bs: seq<Bucket>, place: int, d: int)
  {
    && 0 <= place < |bs| && 0 <= d < |bs| && bs[At(|bs|, place, d)].daf == 0
    && forall i :: 0 <= i < |bs| && Dist(|bs|, place, i) < d ==> bs[i].daf != 0
  }

  /** The ring after `b` has been put at `place` and the run of buckets there has moved up by one. */
  ghost function ShiftUp(bs: seq<Bucket>, b: Bucket, place: int, d: int): (r: seq<Bucket>)
    requires 0 <= place < |bs|
    ensures |r| == |bs|
  {
    seq(|bs|, i requires 0 <= i < |bs| =>
      if i == place then b
      else if Dist(|bs|, place, i) <= d then Bucket(bs[Prev(|bs|, i)].daf + INC, bs[Prev(|bs|, i)].idx)
      else bs[i])
  }

  ghost function PosUp(n: int, pos: seq<int>, place: int, d: int): (r: seq<int>)
    ensures |r| == |pos| + 1
  {
    seq(|pos|, x requires 0 <= x < |pos| => if Dist(n, place, pos[x]) < d then Next(n, pos[x]) else pos[x]) + [place]
  }

  /** The probe for `tag` may stop at offset `t`: it is not behind the bucket there and was not ahead of the
      bucket before. */
  ghost predicate StopsAt(bs: seq<Bucket>, tag: Tag, t: int)
  {
    && TagOk(|bs|, tag) && 0 <= t < |bs|
    && bs[At(|bs|, tag.home, t)].daf <= Probe(tag, t)
    && (t > 0 ==> Probe(tag, t - 1) <= bs[At(|bs|, tag.home, t - 1)].daf)
  }

  lemma UpSlot(bs: seq<Bucket>, tags: seq<Tag>, pos: seq<int>, tag: Tag, t: int, d: int, i: int)
    requires Indexed(bs, tags, pos, -1) && StopsAt(bs, tag, t) && 0 <= i < |bs|
    requires FirstEmpty(bs, At(|bs|, tag.home, t), d)
    ensures SlotOk(ShiftUp(bs, Bucket(Probe(tag, t), |tags|), At(|bs|, tag.home, t), d),
                   tags + [tag], PosUp(|bs|, pos, At(|bs|, tag.home, t), d), -1, i)
  {
    hide Ordered, Entries;
    var n, place := |bs|, At(|bs|, tag.home, t);
    assert SlotOk(bs, tags, pos, -1, i) && SlotOk(bs, tags, pos, -1, Prev(n, i));
    if i != place && Dist(n, place, i) <= d {
      NotFullTurn(bs, tags, pos, -1, At(n, place, d), Prev(n, i));
      var x := bs[Prev(n, i)].idx;
      assert TagOk(n, tags[x]);
      assert Dist(n, tags[x].home, i) == Dist(n, tags[x].home, Prev(n, i)) + 1;
    }
  }

  lemma UpEntry(bs: seq<Bucket>, tags: seq<Tag>, pos: seq<int>, tag: Tag, t: int, d: int, x: int)
    requires Indexed(bs, tags, pos, -1) && StopsAt(bs, tag, t) && 0 <= x <= |pos|
    requires FirstEmpty(bs, At(|bs|, tag.home, t), d)
    ensures EntryOk(ShiftUp(bs, Bucket(Probe(tag, t), |tags|), At(|bs|, tag.home, t), d),
                    PosUp(|bs|, pos, At(|bs|, tag.home, t), d), x)
  {
    var n, place := |bs|, At(|bs|, tag.home, t);
    if x < |pos| {
      assert EntryOk(bs, pos, x);
      hide Ordered, Entries, Slots, TagsOk;
      DafPositive(bs, tags, pos, -1, pos[x]);
      var i := pos[x];
      assert At(n, place, Dist(n, place, i)) == i;
      if Dist(n, place, i) < d {
        assert Prev(n, Next(n, i)) == i;
        assert Dist(n, place, Next(n, i)) == Dist(n, place, i) + 1 && Next(n, i) != place;
      } else {
        assert i != place && Dist(n, place, i) > d;
      }
    }
  }

  /** Order around the new bucket: the bucket before it. */
  lemma UpOrderBefore(bs: seq<Bucket>, tags: seq<Tag>, pos: seq<int>, tag: Tag, t: int, d: int)
    requires Indexed(bs, tags, pos, -1) && StopsAt(bs, tag, t)
    requires FirstEmpty(bs, At(|bs|, tag.home, t), d)
    ensures OrderedAt(ShiftUp(bs, Bucket(Probe(tag, t), |tags|), At(|bs|, tag.home, t), d),
      Prev(|bs|, At(|bs|, tag.home, t)))
  {
    hide Ordered, Entries, Slots, TagsOk;
    var n, place := |bs|, At(|bs|, tag.home, t);
    var i := Prev(n, place);
    assert Next(n, i) == place && 0 <= i < n;
    var r := ShiftUp(bs, Bucket(Probe(tag, t), |tags|), place, d);
    if n == 1 {
      assert r[i].daf == r[place].daf == Probe(tag, t);
    } else if d == n - 1 {
      assert Dist(n, place, i) == n - 1 && At(n, place, n - 1) == i;
      assert Dist(n, place, Prev(n, i)) == n - 2;
      DafPositive(bs, tags, pos, -1, Prev(n, i));
      assert t > 0 ==> i == At(n, tag.home, t - 1);
      assert r[i].daf == bs[Prev(n, i)].daf + INC;
    } else {
      assert Dist(n, place, i) == n - 1;
      DafPositive(bs, tags, pos, -1, i);
      assert t > 0 ==> i == At(n, tag.home, t - 1);
      assert r[i] == bs[i];
    }
    assert r[place].daf == Probe(tag, t);
  }

  lemma UpOrderAfter(bs: seq<Bucket>, tags: seq<Tag>, pos: seq<int>, tag: Tag, t: int, d: int, i: int)
    requires Indexed(bs, tags, pos, -1) && StopsAt(bs, tag, t) && 0 <= i < |bs|
    requires FirstEmpty(bs, At(|bs|, tag.home, t), d) && Next(|bs|, i) != At(|bs|, tag.home, t)
    ensures OrderedAt(ShiftUp(bs, Bucket(Probe(tag, t), |tags|), At(|bs|, tag.home, t), d), i)
  {
    hide Ordered, Entries, Slots, TagsOk;
    var n, place := |bs|, At(|bs|, tag.home, t);
    var j := Next(n, i);
    assert OrderedAt(bs, i) by { OrderAt(bs, i); }
    assert Prev(n, j) == i && Dist(n, place, j) == Dist(n, place, i) + 1;
    if i != place {
      OrderAt(bs, Prev(n, i));
      assert Next(n, Prev(n, i)) == i && Dist(n, place, Prev(n, i)) == Dist(n, place, i) - 1;
    }
    assert Dist(n, place, i) == d ==> i == At(n, place, d);
    assert Dist(n, place, i) < d ==> bs[i].daf != 0;
    DafPositive(bs, tags, pos, -1, i);
    DafPositive(bs, tags, pos, -1, Prev(n, i));
  }

  lemma OrderAt(bs: seq<Bucket>, i: int)
    requires Ordered(bs) && 0 <= i < |bs|
    ensures OrderedAt(bs, i)
  {
  }

  lemma DafPositive(bs: seq<Bucket>, tags: seq<Tag>, pos: seq<int>, hole: int, i: int)
    requires Indexed(bs, tags, pos, hole) && 0 <= i < |bs|
    ensures bs[i].daf == 0 || INC <= bs[i].daf < (|bs| + 1) * INC
  {
    assert SlotOk(bs, tags, pos, hole, i);
    assert bs[i].daf != 0 ==> TagOk(|bs|, tags[bs[i].idx]);
  }

  lemma UpOrder(bs: seq<Bucket>, tags: seq<Tag>, pos: seq<int>, tag: Tag, t: int, d: int, i: int)
    requires Indexed(bs, tags, pos, -1) && StopsAt(bs, tag, t) && 0 <= i < |bs|
    requires FirstEmpty(bs, At(|bs|, tag.home, t), d)
    ensures OrderedAt(ShiftUp(bs, Bucket(Probe(tag, t), |tags|), At(|bs|, tag.home, t), d), i)
  {
    hide Indexed, StopsAt, FirstEmpty, ShiftUp, OrderedAt, Probe;
    assert TagOk(|bs|, tag) && 0 <= t < |bs| by { StopsInRange(bs, tag, t); }
    if Next(|bs|, i) == At(|bs|, tag.home, t) {
      UpOrderBefore(bs, tags, pos, tag, t, d);
    } else {
      UpOrderAfter(bs, tags, pos, tag, t, d, i);
    }
  }

  lemma StopsInRange(bs: seq<Bucket>, tag: Tag, t: int)
    requires StopsAt(bs, tag, t)
    ensures TagOk(|bs|, tag) && 0 <= t < |bs|
  {
  }

  /** Placing a new entry where its probe stops keeps the index. */
  lemma InsertKeeps(bs: seq<Bucket>, tags: seq<Tag>, pos: seq<int>, tag: Tag, t: int, d: int)
    requires Indexed(bs, tags, pos, -1) && StopsAt(bs, tag, t)
    requires FirstEmpty(bs, At(|bs|, tag.home, t), d)
    ensures Indexed(ShiftUp(bs, Bucket(Probe(tag, t), |tags|), At(|bs|, tag.home, t), d),
                    tags + [tag], PosUp(|bs|, pos, At(|bs|, tag.home, t), d), -1)
  {
    hide SlotOk, EntryOk, OrderedAt;
    var r := ShiftUp(bs, Bucket(Probe(tag, t), |tags|), At(|bs|, tag.home, t), d);
    var pos' := PosUp(|bs|, pos, At(|bs|, tag.home, t), d);
    forall i | 0 <= i < |r| ensures SlotOk(r, tags + [tag], pos', -1, i) { UpSlot(bs, tags, pos, tag, t, d, i); }
    forall x | 0 <= x < |pos'| && x != -1 ensures EntryOk(r, pos', x) { UpEntry(bs, tags, pos, tag, t, d, x); }
    forall i | 0 <= i < |r| ensures OrderedAt(r, i) { UpOrder(bs, tags, pos, tag, t, d, i); }
  }

  // ---- Removal: shift down and swap with last ----

  /** The buckets `1..d` places after `b` are away from their homes and the one after them is not. */
  ghost predicate RunEnds(bs: seq<Bucket>, b: int, d: int)
  {
    && 0 <= b < |bs| && 0 <= d < |bs| - 1 && bs[At(|bs|, b, d + 1)].daf < 2 * INC
    && forall i :: 0 <= i < |bs| && 1 <= Dist(|bs|, b, i) <= d ==> bs[i].daf >= 2 * INC
  }

  /** The ring after bucket `b` has been vacated and the run behind it has moved down by one. */
  ghost function ShiftDown(bs: seq<Bucket>, b: int, d: int): (r: seq<Bucket>)
    requires 0 <= b < |bs|
    ensures |r| == |bs|
  {
    seq(|bs|, i requires 0 <= i < |bs| =>
      if Dist(|bs|, b, i) < d then Bucket(bs[Next(|bs|, i)].daf - INC, bs[Next(|bs|, i)].idx)
      else if Dist(|bs|, b, i) == d then EMPTY
      else bs[i])
  }

  ghost function PosDown(n: int, pos: seq<int>, b: int, d: int): (r: seq<int>)
    ensures |r| == |pos|
  {
    seq(|pos|, x requires 0 <= x < |pos| => if 1 <= Dist(n, b, pos[x]) <= d then Prev(n, pos[x]) else pos[x])
  }

  lemma DownSlot(bs: seq<Bucket>, tags: seq<Tag>, pos: seq<int>, b: int, d: int, i: int)
    requires Indexed(bs, tags, pos, -1) && RunEnds(bs, b, d) && bs[b].daf != 0 && 0 <= i < |bs|
    ensures SlotOk(ShiftDown(bs, b, d), tags, PosDown(|bs|, pos, b, d), bs[b].idx, i)
  {
    var n := |bs|;
    var j := if Dist(n, b, i) < d then Next(n, i) else i;
    assert SlotOk(bs, tags, pos, -1, j) && SlotOk(bs, tags, pos, -1, b);
    assert bs[j].daf != 0 ==> TagOk(n, tags[bs[j].idx]);
    hide Ordered, Entries, Slots, TagsOk;
    if j != i {
      assert Dist(n, b, j) == Dist(n, b, i) + 1 && Prev(n, j) == i;
      assert bs[j].daf >= 2 * INC;
      var home := tags[bs[j].idx].home;
      assert Dist(n, home, j) >= 1;
      assert Dist(n, home, i) == Dist(n, home, j) - 1;
    }
  }

  lemma DownEntry(bs: seq<Bucket>, tags: seq<Tag>, pos: seq<int>, b: int, d: int, x: int)
    requires Indexed(bs, tags, pos, -1) && RunEnds(bs, b, d) && bs[b].daf != 0
    requires 0 <= x < |pos| && x != bs[b].idx
    ensures EntryOk(ShiftDown(bs, b, d), PosDown(|bs|, pos, b, d), x)
  {
    var n, i := |bs|, pos[x];
    assert EntryOk(bs, pos, x);
    hide Ordered, Entries, Slots, TagsOk;
    assert i != b;
    if Dist(n, b, i) <= d {
      assert Next(n, Prev(n, i)) == i && Dist(n, b, Prev(n, i)) == Dist(n, b, i) - 1;
      assert bs[i].daf >= 2 * INC;
    }
  }

  lemma DownOrderInside(bs: seq<Bucket>, tags: seq<Tag>, pos: seq<int>, b: int, d: int, i: int)
    requires Indexed(bs, tags, pos, -1) && RunEnds(bs, b, d) && 0 <= i < |bs| && Dist(|bs|, b, i) <= d
    ensures OrderedAt(ShiftDown(bs, b, d), i)
  {
    hide Ordered, Entries, Slots, TagsOk;
    var n, j := |bs|, Next(|bs|, i);
    assert Dist(n, b, j) == Dist(n, b, i) + 1;
    var r := ShiftDown(bs, b, d);
    if Dist(n, b, i) == d {
      assert j == At(n, b, d + 1) && r[j] == bs[j];
    } else {
      OrderAt(bs, j);
      assert bs[j].daf >= 2 * INC;
      assert r[i].daf == bs[j].daf - INC;
    }
  }

  lemma DownOrderOutside(bs: seq<Bucket>, tags: seq<Tag>, pos: seq<int>, b: int, d: int, i: int)
    requires Indexed(bs, tags, pos, -1) && RunEnds(bs, b, d) && 0 <= i < |bs| && Dist(|bs|, b, i) > d
    ensures OrderedAt(ShiftDown(bs, b, d), i)
  {
    hide Ordered, Entries, Slots, TagsOk;
    var n, j := |bs|, Next(|bs|, i);
    var r := ShiftDown(bs, b, d);
    OrderAt(bs, i);
    DafPositive(bs, tags, pos, -1, i);
    assert r[i] == bs[i];
    if j == b {
      OrderAt(bs, b);
      assert Dist(n, b, j) == 0;
      assert d > 0 ==>
        Dist(n, b, Next(n, b)) == 1 && bs[Next(n, b)].daf >= 2 * INC && r[j].daf == bs[Next(n, b)].daf - INC;
      DafPositive(bs, tags, pos, -1, b);
    } else {
      assert Dist(n, b, j) == Dist(n, b, i) + 1;
    }
  }

  /** Vacating a bucket and closing the gap keeps the index of all other entries. */
  lemma RemoveKeeps(bs: seq<Bucket>, tags: seq<Tag>, pos: seq<int>, b: int, d: int)
    requires Indexed(bs, tags, pos, -1) && RunEnds(bs, b, d) && bs[b].daf != 0
    ensures Indexed(ShiftDown(bs, b, d), tags, PosDown(|bs|, pos, b, d), bs[b].idx)
  {
    hide SlotOk, EntryOk, OrderedAt;
    var r, pos', hole := ShiftDown(bs, b, d), PosDown(|bs|, pos, b, d), bs[b].idx;
    forall i | 0 <= i < |r| ensures SlotOk(r, tags, pos', hole, i) { DownSlot(bs, tags, pos, b, d, i); }
    forall x | 0 <= x < |pos'| && x != hole ensures EntryOk(r, pos', x) { DownEntry(bs, tags, pos, b, d, x); }
    forall i | 0 <= i < |r| ensures OrderedAt(r, i) {
      if Dist(|bs|, b, i) <= d {
        DownOrderInside(bs, tags, pos, b, d, i);
      } else {
        DownOrderOutside(bs, tags, pos, b, d, i);
      }
    }
  }

  /** Dropping the last entry, once it has no bucket. */
  lemma DropLast(bs: seq<Bucket>, tags: seq<Tag>, pos: seq<int>)
    requires |tags| > 0 && Indexed(bs, tags, pos, |tags| - 1)
    ensures |pos| == |tags| && Indexed(bs, tags[..|tags| - 1], pos[..|tags| - 1], -1)
  {
    var last := |tags| - 1;
    forall i | 0 <= i < |bs| ensures SlotOk(bs, tags[..last], pos[..last], -1, i) {
      assert SlotOk(bs, tags, pos, last, i);
    }
    forall x | 0 <= x < last ensures EntryOk(bs, pos[..last], x) {
      assert EntryOk(bs, pos, x);
    }
  }

  /** Renaming the last entry to the vacant number `hole`. */
  lemma MoveLast(bs: seq<Bucket>, tags: seq<Tag>, pos: seq<int>, hole: int)
    requires 0 <= hole < |tags| - 1 && Indexed(bs, tags, pos, hole)
    ensures 0 <= pos[|tags| - 1] < |bs|
    ensures Indexed(bs[pos[|tags| - 1] := bs[pos[|tags| - 1]].(idx := hole)],
                    tags[..|tags| - 1][hole := tags[|tags| - 1]],
                    pos[..|tags| - 1][hole := pos[|tags| - 1]], -1)
  {
    var last := |tags| - 1;
    assert EntryOk(bs, pos, last) && SlotOk(bs, tags, pos, hole, pos[last]);
    var r := bs[pos[last] := bs[pos[last]].(idx := hole)];
    var tags', pos' := tags[..last][hole := tags[last]], pos[..last][hole := pos[last]];
    hide Ordered;
    forall i | 0 <= i < |r| ensures SlotOk(r, tags', pos', -1, i) {
      assert SlotOk(bs, tags, pos, hole, i);
    }
    forall x | 0 <= x < |pos'| ensures EntryOk(r, pos', x) {
      if x != hole {
        assert EntryOk(bs, pos, x);
      }
    }
    assert Ordered(r) by { SameOrder(bs, r); }
  }

  lemma SameOrder(bs: seq<Bucket>, r: seq<Bucket>)
    requires Ordered(bs) && |r| == |bs| && forall i :: 0 <= i < |bs| ==> r[i].daf == bs[i].daf
    ensures Ordered(r)
  {
    forall i | 0 <= i < |r| ensures OrderedAt(r, i) {
      assert OrderedAt(bs, i);
    }
  }
}
