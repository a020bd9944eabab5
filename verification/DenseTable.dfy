/** The dense hash table: a vector of key-value pairs without holes and the bucket index over it. */
module DenseTable {
  import opened Basics
  import opened DenseIndex

  const WORD := 0x1_0000_0000
  const HASHES := 0x1_0000_0000_0000_0000

  /** Largest bucket count for which the 24-bit distance cannot wrap. */
  const LIMIT := 0x80_0000

  /** One more step from home, in 32-bit arithmetic. */
  function DistInc(x: int): int { (x + INC) % WORD }

  function DistDec(x: int): int { (x - INC) % WORD }

  // ---- The value vector as a map ----

  ghost predicate DistinctKeys<K, V>(vs: seq<(K, V)>)
  {
    forall i, j :: 0 <= i < j < |vs| ==> vs[i].0 != vs[j].0
  }

  ghost function MapOf<K, V>(vs: seq<(K, V)>): map<K, V>
  {
    if vs == [] then map[] else MapOf(vs[..|vs| - 1])[vs[|vs| - 1].0 := vs[|vs| - 1].1]
  }

  lemma {:induction false} MapOfHas<K, V>(vs: seq<(K, V)>, x: int)
    requires DistinctKeys(vs) && 0 <= x < |vs|
    ensures vs[x].0 in MapOf(vs) && MapOf(vs)[vs[x].0] == vs[x].1
    decreases |vs|
  {
    if x < |vs| - 1 {
      MapOfHas(vs[..|vs| - 1], x);
    }
  }

  lemma {:induction false} MapOfOnly<K, V>(vs: seq<(K, V)>, k: K) returns (x: int)
    requires k in MapOf(vs)
    ensures 0 <= x < |vs| && vs[x].0 == k
    decreases |vs|
  {
    if vs[|vs| - 1].0 == k {
      x := |vs| - 1;
    } else {
      x := MapOfOnly(vs[..|vs| - 1], k);
    }
  }

  lemma MapOfAppend<K, V>(vs: seq<(K, V)>, e: (K, V))
    ensures MapOf(vs + [e]) == MapOf(vs)[e.0 := e.1]
  {
    assert (vs + [e])[..|vs|] == vs;
  }

  /** A key is in the map exactly when a position of the vector holds it. */
  lemma MapOfKeys<K, V>(vs: seq<(K, V)>, k: K)
    requires DistinctKeys(vs)
    ensures k in MapOf(vs) <==> exists x :: 0 <= x < |vs| && vs[x].0 == k
  {
    if k in MapOf(vs) {
      var x := MapOfOnly(vs, k);
    }
    forall x | 0 <= x < |vs| && vs[x].0 == k ensures k in MapOf(vs) {
      MapOfHas(vs, x);
    }
  }

  lemma AppendDistinct<K, V>(vs: seq<(K, V)>, k: K, v: V)
    requires DistinctKeys(vs) && k !in KeysFor(vs)
    ensures DistinctKeys(vs + [(k, v)]) && k !in MapOf(vs) && MapOf(vs + [(k, v)]) == MapOf(vs)[k := v]
  {
    assert forall x :: 0 <= x < |vs| ==> KeysFor(vs)[x] == vs[x].0;
    MapOfKeys(vs, k);
    MapOfAppend(vs, (k, v));
  }

  lemma LastOnly<K, V>(vs: seq<(K, V)>, x: nat)
    requires DistinctKeys(vs) && x < |vs| && vs[x].0 == vs[|vs| - 1].0
    ensures x == |vs| - 1
  {
  }

  lemma WithoutDistinct<K, V>(vs: seq<(K, V)>, x: nat)
    requires DistinctKeys(vs) && x < |vs|
    ensures DistinctKeys(Without(vs, x))
  {
  }

  /** What is left after a removal was there before. */
  lemma WithoutKeeps<K, V>(vs: seq<(K, V)>, x: nat, k: K)
    requires DistinctKeys(vs) && x < |vs| && k in MapOf(Without(vs, x))
    ensures k != vs[x].0 && k in MapOf(vs) && MapOf(Without(vs, x))[k] == MapOf(vs)[k]
  {
    hide MapOf;
    var r := Without(vs, x);
    WithoutDistinct(vs, x);
    var y := MapOfOnly(r, k);
    MapOfHas(r, y);
    MapOfHas(vs, if y == x then |vs| - 1 else y);
  }

  lemma WithoutLeaves<K, V>(vs: seq<(K, V)>, x: nat, k: K)
    requires DistinctKeys(vs) && x < |vs| && k in MapOf(vs) && k != vs[x].0
    ensures k in MapOf(Without(vs, x))
  {
    hide MapOf;
    WithoutDistinct(vs, x);
    var y := MapOfOnly(vs, k);
    MapOfHas(Without(vs, x), if y == |vs| - 1 then x else y);
  }

  /** Removing a pair removes its key and nothing else. */
  lemma MapOfWithout<K, V>(vs: seq<(K, V)>, x: nat)
    requires DistinctKeys(vs) && x < |vs|
    ensures MapOf(Without(vs, x)) == MapOf(vs) - {vs[x].0}
  {
    hide MapOf, DistinctKeys, Without;
    var r := Without(vs, x);
    forall k | k in MapOf(r) ensures k in MapOf(vs) - {vs[x].0} && MapOf(r)[k] == MapOf(vs)[k] {
      WithoutKeeps(vs, x, k);
    }
    forall k | k in MapOf(vs) - {vs[x].0} ensures k in MapOf(r) {
      WithoutLeaves(vs, x, k);
    }
  }

  /** Overwriting the value at a position. */
  lemma MapOfAssign<K, V>(vs: seq<(K, V)>, x: nat, v: V)
    requires DistinctKeys(vs) && x < |vs|
    ensures DistinctKeys(vs[x := (vs[x].0, v)])
    ensures MapOf(vs[x := (vs[x].0, v)]) == MapOf(vs)[vs[x].0 := v]
  {
    var r := vs[x := (vs[x].0, v)];
    forall k | k in MapOf(r) ensures k in MapOf(vs)[vs[x].0 := v] && MapOf(r)[k] == MapOf(vs)[vs[x].0 := v][k] {
      var y := MapOfOnly(r, k);
      MapOfHas(r, y);
      MapOfHas(vs, y);
    }
    forall k | k in MapOf(vs)[vs[x].0 := v] ensures k in MapOf(r) {
      if k == vs[x].0 {
        MapOfHas(r, x);
      } else {
        var y := MapOfOnly(vs, k);
        MapOfHas(r, y);
      }
    }
  }

  // ---- Lookup ----

  /** A probe for key `k` at offset `t` has not passed the bucket of `k`, if there is one. */
  ghost predicate NotPassed<K>(n: int, pos: seq<int>, keys: seq<K>, k: K, tag: Tag, t: int)
    requires |pos| == |keys|
  {
    forall x :: 0 <= x < |keys| && keys[x] == k ==> t <= Dist(n, tag.home, pos[x])
  }

  ghost predicate Tagged<K>(tags: seq<Tag>, keys: seq<K>, k: K, tag: Tag)
  {
    |tags| == |keys| && forall x :: 0 <= x < |keys| && keys[x] == k ==> tags[x] == tag
  }

  lemma ProbeBegins<K>(bs: seq<Bucket>, tags: seq<Tag>, pos: seq<int>, keys: seq<K>, k: K, tag: Tag)
    requires Indexed(bs, tags, pos, -1) && Tagged(tags, keys, k, tag)
    ensures |pos| == |keys| && NotPassed(|bs|, pos, keys, k, tag, 0)
  {
    forall x | 0 <= x < |keys| && keys[x] == k ensures 0 <= Dist(|bs|, tag.home, pos[x]) {
      assert EntryOk(bs, pos, x) && TagOk(|bs|, tags[x]);
    }
  }

  /** Below the limit the 32-bit step to the next bucket does not wrap. */
  lemma NextProbe(n: int, tag: Tag, t: int)
    requires TagOk(n, tag) && n <= LIMIT && 0 <= t < n
    ensures DistInc(Probe(tag, t)) == Probe(tag, t + 1) && Next(n, At(n, tag.home, t)) == At(n, tag.home, t + 1)
  {
    assert Probe(tag, t + 1) < WORD;
  }

  /** The first probe: distance one, at the home bucket. */
  lemma FirstProbe(n: int, tag: Tag)
    requires TagOk(n, tag)
    ensures INC + tag.fp == Probe(tag, 0) && At(n, tag.home, 0) == tag.home
  {
  }

  /** A probe ahead of the bucket it looks at proves the key absent. */
  lemma Overtaken<K>(bs: seq<Bucket>, tags: seq<Tag>, pos: seq<int>, keys: seq<K>, k: K, tag: Tag, t: int)
    requires Indexed(bs, tags, pos, -1) && Tagged(tags, keys, k, tag) && TagOk(|bs|, tag)
    requires 0 <= t <= |bs| && NotPassed(|bs|, pos, keys, k, tag, t)
    requires Probe(tag, t) > bs[At(|bs|, tag.home, t)].daf
    ensures k !in keys
  {
    forall x | 0 <= x < |keys| ensures keys[x] != k {
      if keys[x] == k {
        NotOvertaken(bs, tags, pos, -1, x, t);
      }
    }
  }

  /** A bucket that does not hold the key can be stepped over. */
  lemma StepOver<K>(bs: seq<Bucket>, tags: seq<Tag>, pos: seq<int>, keys: seq<K>, k: K, tag: Tag, t: int)
    requires Indexed(bs, tags, pos, -1) && Tagged(tags, keys, k, tag) && TagOk(|bs|, tag)
    requires 0 <= t <= |bs| && NotPassed(|bs|, pos, keys, k, tag, t)
    requires var b := bs[At(|bs|, tag.home, t)];
      !(Probe(tag, t) == b.daf && 0 <= b.idx < |keys| && keys[b.idx] == k)
    ensures NotPassed(|bs|, pos, keys, k, tag, t + 1)
  {
    forall x | 0 <= x < |keys| && keys[x] == k ensures t + 1 <= Dist(|bs|, tag.home, pos[x]) {
      NotOvertaken(bs, tags, pos, -1, x, t);
    }
  }

  /** A bucket whose distance and fingerprint match holds an entry; one that is not behind the probe is not a
      whole turn away. */
  lemma BucketFacts(bs: seq<Bucket>, tags: seq<Tag>, pos: seq<int>, tag: Tag, t: int)
    requires Indexed(bs, tags, pos, -1) && TagOk(|bs|, tag) && 0 <= t <= |bs|
    ensures 0 <= At(|bs|, tag.home, t) < |bs|
    ensures var b := bs[At(|bs|, tag.home, t)];
      && (b.daf != 0 ==> 0 <= b.idx < |tags|)
      && (Probe(tag, t) <= b.daf ==> t < |bs|)
      && Probe(tag, t) > 0
  {
    var i := At(|bs|, tag.home, t);
    assert SlotOk(bs, tags, pos, -1, i);
    DafPositive(bs, tags, pos, -1, i);
  }

  /** Where the probe stops, the new entry can be placed. */
  lemma StopsShort(bs: seq<Bucket>, tags: seq<Tag>, pos: seq<int>, tag: Tag, t: int, e: int)
    requires Indexed(bs, tags, pos, -1) && TagOk(|bs|, tag) && 0 <= t <= |bs|
    requires 0 <= e < |bs| && bs[e].daf == 0
    requires bs[At(|bs|, tag.home, t)].daf <= Probe(tag, t)
    requires t > 0 ==> Probe(tag, t - 1) <= bs[At(|bs|, tag.home, t - 1)].daf
    ensures StopsAt(bs, tag, t)
  {
    if t == |bs| {
      var i := At(|bs|, tag.home, t - 1);
      assert SlotOk(bs, tags, pos, -1, i);
      assert bs[i].daf != 0;
      assert TagOk(|bs|, tags[bs[i].idx]);
      NotFullTurn(bs, tags, pos, -1, e, i);
    }
  }

  lemma ShiftUpStep(bs: seq<Bucket>, b: Bucket, place: int, d: int, u: int)
    requires FirstEmpty(bs, place, d) && 0 <= u <= d && bs[At(|bs|, place, u)].daf != 0
    requires forall i :: 0 <= i < |bs| ==> 0 <= bs[i].daf < WORD - INC
    ensures var n, i := |bs|, At(|bs|, place, u);
      && u < d && Next(n, i) == At(n, place, u + 1) && 0 <= Next(n, i) < n
      && ShiftUp(bs, b, place, d)[Next(n, i)] == Bucket(DistInc(bs[i].daf), bs[i].idx)
      && (forall j :: 0 <= j < n ==> (Dist(n, place, j) < u + 1 <==> Dist(n, place, j) < u || j == i))
  {
    var n, i := |bs|, At(|bs|, place, u);
    assert u != d;
    assert Prev(n, Next(n, i)) == i && Dist(n, place, Next(n, i)) == u + 1 && Next(n, i) != place;
    assert DistInc(bs[i].daf) == bs[i].daf + INC by { IncExact(bs[i].daf); }
    hide DistInc;
  }

  lemma IncExact(x: int)
    requires 0 <= x < WORD - INC
    ensures DistInc(x) == x + INC
  {
  }

  /** From any bucket there is a first empty one, if there is one at all. */
  lemma {:induction false} NearestEmpty(bs: seq<Bucket>, place: int, e: int) returns (d: int)
    requires 0 <= place < |bs| && 0 <= e < |bs| && bs[e].daf == 0
    ensures FirstEmpty(bs, place, d)
  {
    var n := |bs|;
    d := 0;
    while bs[At(n, place, d)].daf != 0
      invariant 0 <= d <= Dist(n, place, e)
      invariant forall i :: 0 <= i < n && Dist(n, place, i) < d ==> bs[i].daf != 0
      decreases n - d
    {
      assert At(n, place, Dist(n, place, e)) == e;
      assert forall i :: 0 <= i < n && Dist(n, place, i) == d ==> i == At(n, place, d);
      d := d + 1;
    }
  }

  /** Every bucket's distance leaves room for one more step below the limit. */
  lemma DafsFit(bs: seq<Bucket>, tags: seq<Tag>, pos: seq<int>, hole: int)
    requires Indexed(bs, tags, pos, hole) && |bs| <= LIMIT
    ensures forall i :: 0 <= i < |bs| ==> 0 <= bs[i].daf < WORD - INC
  {
    hide Indexed;
    forall i | 0 <= i < |bs| ensures 0 <= bs[i].daf < WORD - INC {
      DafPositive(bs, tags, pos, hole, i);
    }
  }

  lemma ShiftUpEnd(bs: seq<Bucket>, b: Bucket, place: int, d: int, u: int)
    requires FirstEmpty(bs, place, d) && 0 <= u <= d && bs[At(|bs|, place, u)].daf == 0
    ensures u == d && forall j :: 0 <= j < |bs| ==>
              ShiftUp(bs, b, place, d)[j] == bs[j] || Dist(|bs|, place, j) < u || j == At(|bs|, place, u)
  {
    var n, i := |bs|, At(|bs|, place, u);
    assert Dist(n, place, i) == u;
  }

  lemma DecExact(x: int)
    requires INC <= x < WORD
    ensures DistDec(x) == x - INC
  {
  }

  /** Behind any bucket there is an end to the run of displaced buckets, if some other bucket is empty. */
  lemma {:induction false} NearestRunEnd(bs: seq<Bucket>, b: int, e: int) returns (d: int)
    requires 0 <= b < |bs| && 0 <= e < |bs| && bs[e].daf == 0 && e != b
    ensures RunEnds(bs, b, d)
  {
    var n := |bs|;
    d := 0;
    assert At(n, b, Dist(n, b, e)) == e && Dist(n, b, e) >= 1;
    while bs[At(n, b, d + 1)].daf >= 2 * INC
      invariant 0 <= d < Dist(n, b, e)
      invariant forall i :: 0 <= i < n && 1 <= Dist(n, b, i) <= d ==> bs[i].daf >= 2 * INC
      decreases n - d
    {
      assert forall i :: 0 <= i < n && Dist(n, b, i) == d + 1 ==> i == At(n, b, d + 1);
      d := d + 1;
    }
  }

  lemma ShiftDownStep(bs: seq<Bucket>, b: int, d: int, u: int)
    requires RunEnds(bs, b, d) && 0 <= u <= d && bs[At(|bs|, b, u + 1)].daf >= 2 * INC
    requires forall i :: 0 <= i < |bs| ==> 0 <= bs[i].daf < WORD - INC
    ensures var n, i, j := |bs|, At(|bs|, b, u), At(|bs|, b, u + 1);
      && u < d && Next(n, j) == At(n, b, u + 2) && 0 <= Next(n, j) < n && i != j && Dist(n, b, j) == u + 1
      && ShiftDown(bs, b, d)[i] == Bucket(DistDec(bs[j].daf), bs[j].idx)
      && (forall k :: 0 <= k < n ==> (Dist(n, b, k) < u + 1 <==> Dist(n, b, k) < u || k == i))
  {
    var n, i, j := |bs|, At(|bs|, b, u), At(|bs|, b, u + 1);
    assert u != d;
    assert Next(n, i) == j && Dist(n, b, i) == u;
    DecExact(bs[j].daf);
    hide DistDec;
  }

  lemma ShiftDownEnd(bs: seq<Bucket>, b: int, d: int, u: int)
    requires RunEnds(bs, b, d) && 0 <= u <= d && bs[At(|bs|, b, u + 1)].daf < 2 * INC
    ensures u == d && ShiftDown(bs, b, d)[At(|bs|, b, u)] == EMPTY
    ensures forall j :: 0 <= j < |bs| ==>
              ShiftDown(bs, b, d)[j] == bs[j] || Dist(|bs|, b, j) < u || j == At(|bs|, b, u)
  {
    var n := |bs|;
    assert Dist(n, b, At(n, b, u + 1)) == u + 1 && Dist(n, b, At(n, b, u)) == u;
  }

  /** The bucket at offset `t` names entry `x` only if it is the bucket of `x`, even though empty buckets hold
      the number zero: before that bucket none is empty. */
  lemma ScanStep(bs: seq<Bucket>, tags: seq<Tag>, pos: seq<int>, hole: int, x: int, t: int)
    requires Indexed(bs, tags, pos, hole) && 0 <= x < |tags| && x != hole
    requires 0 <= t <= Dist(|bs|, tags[x].home, pos[x])
    ensures var i := At(|bs|, tags[x].home, t);
      && 0 <= i < |bs| && 0 <= pos[x] < |bs| && (bs[i].idx == x <==> i == pos[x])
      && (i == pos[x] <==> t == Dist(|bs|, tags[x].home, pos[x]))
  {
    NotOvertaken(bs, tags, pos, hole, x, t);
    var i := At(|bs|, tags[x].home, t);
    assert TagOk(|bs|, tags[x]) && SlotOk(bs, tags, pos, hole, i) && EntryOk(bs, pos, x);
    hide Slots, Entries, Ordered, TagsOk;
    assert Dist(|bs|, tags[x].home, i) == t;
  }

  lemma ScanRange(bs: seq<Bucket>, tags: seq<Tag>, pos: seq<int>, hole: int, x: int)
    requires Indexed(bs, tags, pos, hole) && 0 <= x < |tags| && x != hole
    ensures TagOk(|bs|, tags[x]) && 0 <= Dist(|bs|, tags[x].home, pos[x]) < |bs|
  {
    assert EntryOk(bs, pos, x) && TagOk(|bs|, tags[x]);
  }

  // ---- Hashing ----

  /** The upper bits of the hash choose the home bucket and its lowest byte is the fingerprint. */
  function TagFor<K>(hash: K -> nat, shifts: nat, k: K): Tag
  {
    Pow2Positive(shifts);
    Tag(hash(k) / Pow2(shifts), hash(k) % INC)
  }

  /** What a bucket holds for a key `t` places from home: its distance, counted from one, in the upper three bytes and
      the fingerprint in the lowest. */
  lemma BucketBytes<K>(hash: K -> nat, shifts: nat, k: K, t: nat)
    ensures var daf := Probe(TagFor(hash, shifts, k), t); daf / 256 == t + 1 && daf % 256 == hash(k) % 256
  {
    var q, r := hash(k) / 256, hash(k) % 256;
    assert Probe(TagFor(hash, shifts, k), t) == 256 * (t + 1) + r;
  }

  ghost function KeysFor<K, V>(vs: seq<(K, V)>): (r: seq<K>)
    ensures |r| == |vs| && forall x :: 0 <= x < |vs| ==> r[x] == vs[x].0
  {
    seq(|vs|, x requires 0 <= x < |vs| => vs[x].0)
  }

  ghost function TagsFor<K, V>(hash: K -> nat, shifts: nat, vs: seq<(K, V)>): (r: seq<Tag>)
    ensures |r| == |vs| && forall x :: 0 <= x < |vs| ==> r[x] == TagFor(hash, shifts, vs[x].0)
  {
    seq(|vs|, x requires 0 <= x < |vs| => TagFor(hash, shifts, vs[x].0))
  }

  lemma {:induction false} Pow2Sum(a: nat, b: nat)
    ensures Pow2(a + b) == Pow2(a) * Pow2(b)
  {
    if a > 0 { Pow2Sum(a - 1, b); }
  }

  lemma Pow2Of64()
    ensures Pow2(64) == HASHES
  {
    assert Pow2(8) == 256;
    Pow2Sum(8, 8);
    Pow2Sum(16, 16);
    Pow2Sum(32, 32);
  }

  lemma {:induction false} Pow2Strict(a: nat, b: nat)
    requires a < b
    ensures 2 * Pow2(a) <= Pow2(b)
  {
    if a + 1 < b {
      Pow2Strict(a, b - 1);
    }
  }

  lemma Pow2OfLimit()
    ensures Pow2(23) == LIMIT
  {
    assert Pow2(8) == 256 && Pow2(7) == 128;
    Pow2Sum(8, 8);
    Pow2Sum(16, 7);
  }

  /** A table below the limit can double without passing it. */
  lemma CanDouble(shifts: nat)
    requires shifts <= 62 && Pow2(64 - shifts) < LIMIT
    ensures shifts > 0 && Pow2(64 - (shifts - 1)) == 2 * Pow2(64 - shifts) <= LIMIT
  {
    Pow2OfLimit();
    if 64 - shifts >= 23 {
      if 64 - shifts > 23 {
        Pow2Strict(23, 64 - shifts);
      }
    } else {
      Pow2Strict(64 - shifts, 23);
    }
  }

  lemma QuotientBound(h: nat, p: nat, r: nat)
    requires p > 0 && h < p * r
    ensures 0 <= h / p < r
  {
    var q := h / p;
    assert h == p * q + h % p;
    assert q >= r ==> p * q >= p * r;
  }

  /** Shifting a 64-bit hash leaves a bucket number. */
  lemma HomeInRange(h: nat, shifts: nat)
    requires h < HASHES && shifts <= 64
    ensures Pow2(shifts) > 0 && 0 <= h / Pow2(shifts) < Pow2(64 - shifts)
  {
    Pow2Positive(shifts);
    Pow2Of64();
    Pow2Sum(shifts, 64 - shifts);
    hide Pow2;
    QuotientBound(h, Pow2(shifts), Pow2(64 - shifts));
  }

  lemma TagInRange<K>(hash: K -> nat, shifts: nat, k: K)
    requires hash(k) < HASHES && shifts <= 64
    ensures TagOk(Pow2(64 - shifts), TagFor(hash, shifts, k))
  {
    HomeInRange(hash(k), shifts);
  }

  lemma TaggedFor<K, V>(hash: K -> nat, shifts: nat, vs: seq<(K, V)>, k: K)
    ensures Tagged(TagsFor(hash, shifts, vs), KeysFor(vs), k, TagFor(hash, shifts, k))
  {
  }

  lemma TagsGrow<K, V>(hash: K -> nat, shifts: nat, vs: seq<(K, V)>, x: nat)
    requires x < |vs|
    ensures TagsFor(hash, shifts, vs[..x + 1]) == TagsFor(hash, shifts, vs[..x]) + [TagFor(hash, shifts, vs[x].0)]
  {
  }

  lemma ClearedIndex(bs: seq<Bucket>)
    requires |bs| > 0 && forall i :: 0 <= i < |bs| ==> bs[i] == EMPTY
    ensures Indexed(bs, [], [], -1)
  {
    forall i | 0 <= i < |bs| ensures OrderedAt(bs, i) {
      assert bs[i] == EMPTY && bs[Next(|bs|, i)] == EMPTY;
    }
  }

  lemma TagsAssign<K, V>(hash: K -> nat, shifts: nat, vs: seq<(K, V)>, x: nat, v: V)
    requires x < |vs|
    ensures TagsFor(hash, shifts, vs[x := (vs[x].0, v)]) == TagsFor(hash, shifts, vs)
  {
  }

  /** The tags and the keys of the vector after a removal. */
  lemma TagsWithout<K, V>(hash: K -> nat, shifts: nat, vs: seq<(K, V)>, x: nat)
    requires x < |vs|
    ensures TagsFor(hash, shifts, Without(vs, x)) == Without(TagsFor(hash, shifts, vs), x)
  {
  }

  lemma HasBucket(bs: seq<Bucket>, tags: seq<Tag>, pos: seq<int>, x: int)
    requires Indexed(bs, tags, pos, -1) && 0 <= x < |tags|
    ensures 0 <= pos[x] < |bs| && bs[pos[x]].daf != 0 && bs[pos[x]].idx == x
  {
    assert EntryOk(bs, pos, x);
  }

  lemma BucketHolds(bs: seq<Bucket>, tags: seq<Tag>, pos: seq<int>, hole: int, b: int)
    requires Indexed(bs, tags, pos, hole) && 0 <= b < |bs| && bs[b].daf != 0
    ensures 0 <= bs[b].idx < |tags| && bs[b].idx != hole
  {
    assert SlotOk(bs, tags, pos, hole, b);
  }

  /** In step with the ordering invariant, a probe that matched a bucket is not behind the next one. */
  lemma NeverBehind(bs: seq<Bucket>, tags: seq<Tag>, pos: seq<int>, tag: Tag, t: int)
    requires Indexed(bs, tags, pos, -1) && TagOk(|bs|, tag) && 0 <= t < |bs|
    requires bs[At(|bs|, tag.home, t)].daf == Probe(tag, t)
    ensures 0 <= At(|bs|, tag.home, t + 1) < |bs| && bs[At(|bs|, tag.home, t + 1)].daf <= Probe(tag, t + 1)
  {
    var i := At(|bs|, tag.home, t);
    assert OrderedAt(bs, i) && Next(|bs|, i) == At(|bs|, tag.home, t + 1);
  }

  lemma AtLeastFour(shifts: nat)
    requires shifts <= 62
    ensures Pow2(64 - shifts) >= 4
  {
    Pow2Sum(62 - shifts, 2);
    Pow2Positive(62 - shifts);
    assert Pow2(2) == 4;
  }

  // ---- The table ----

  class Table<K(!new, ==), V> {
    const hash: K -> nat
    const capacityFor: nat -> nat
    var values: seq<(K, V)>
    var buckets: array<Bucket>
    var maxCapacity: nat
    var shifts: nat
    ghost var pos: seq<int>

    ghost predicate Sized()
      reads this`shifts, this`buckets, this`maxCapacity
    {
      && (forall k :: hash(k) < HASHES) && (forall n :: n > 0 ==> capacityFor(n) < n)
      && shifts <= 62 && buckets.Length == Pow2(64 - shifts) && buckets.Length <= LIMIT
      && maxCapacity == capacityFor(buckets.Length)
    }

    ghost predicate Valid()
      reads this, buckets
    {
      && Sized() && |values| < buckets.Length && DistinctKeys(values)
      && Indexed(buckets[..], TagsFor(hash, shifts, values), pos, -1)
    }

    /** The map the table stands for. */
    ghost function Contents(): map<K, V>
      reads this
    {
      MapOf(values)
    }

    /** An empty table with four buckets. */
    constructor (h: K -> nat, capacity: nat -> nat)
      requires (forall k :: h(k) < HASHES) && (forall n :: n > 0 ==> capacity(n) < n)
      ensures Valid() && values == [] && Contents() == map[] && fresh(buckets)
      ensures hash == h && capacityFor == capacity
    {
      hash, capacityFor, values, shifts, pos := h, capacity, [], 62, [];
      buckets := new Bucket[4](_ => EMPTY);
      maxCapacity := capacity(4);
      new;
      assert Pow2(2) == 4;
      ClearedIndex(buckets[..]);
      hide Indexed;
      assert TagsFor(hash, shifts, values) == [];
    }

    // ---- Lookup ----

    /** Finds the position of a key in the value vector, or -1 for the end iterator. The first two probes are
        unrolled and do not check whether the probe has overtaken the bucket. */
    method Find(k: K) returns (r: int)
      requires Valid()
      ensures -1 <= r < |values| && (r >= 0 ==> values[r].0 == k)
      ensures r < 0 ==> forall x :: 0 <= x < |values| ==> values[x].0 != k
    {
      if values == [] {
        return -1;
      }
      var n, tag := buckets.Length, TagFor(hash, shifts, k);
      ghost var bs, tags, keys := buckets[..], TagsFor(hash, shifts, values), KeysFor(values);
      TagInRange(hash, shifts, k);
      TaggedFor(hash, shifts, values, k);
      AtLeastFour(shifts);
      ProbeBegins(bs, tags, pos, keys, k, tag);
      FirstProbe(n, tag);
      hide Indexed, DistInc, Probe, At, Next, NotPassed, Tagged, TagFor;
      var daf, i, t := INC + tag.fp, tag.home, 0;
      BucketFacts(bs, tags, pos, tag, t);
      if daf == buckets[i].daf && values[buckets[i].idx].0 == k {
        return buckets[i].idx;
      }
      StepOver(bs, tags, pos, keys, k, tag, t);
      NextProbe(n, tag, t);
      daf, i, t := DistInc(daf), Next(n, i), t + 1;
      BucketFacts(bs, tags, pos, tag, t);
      if daf == buckets[i].daf && values[buckets[i].idx].0 == k {
        return buckets[i].idx;
      }
      StepOver(bs, tags, pos, keys, k, tag, t);
      NextProbe(n, tag, t);
      daf, i, t := DistInc(daf), Next(n, i), t + 1;
      while true
        invariant 0 <= t <= n && i == At(n, tag.home, t) && daf == Probe(tag, t)
        invariant NotPassed(n, pos, keys, k, tag, t)
        decreases n - t
      {
        BucketFacts(bs, tags, pos, tag, t);
        if daf == buckets[i].daf {
          if values[buckets[i].idx].0 == k {
            return buckets[i].idx;
          }
        } else if daf > buckets[i].daf {
          Overtaken(bs, tags, pos, keys, k, tag, t);
          return -1;
        }
        StepOver(bs, tags, pos, keys, k, tag, t);
        NextProbe(n, tag, t);
        daf, i, t := DistInc(daf), Next(n, i), t + 1;
      }
    }

    // ---- Insertion ----

    /** Puts `bucket` at `place` and moves the run of occupied buckets there up by one, into the first empty
        bucket. */
    method PlaceAndShiftUp(bucket: Bucket, place: int, ghost d: int)
      requires FirstEmpty(buckets[..], place, d)
      requires forall i :: 0 <= i < buckets.Length ==> 0 <= buckets[i].daf < WORD - INC
      modifies buckets
      ensures buckets[..] == ShiftUp(old(buckets[..]), bucket, place, d)
    {
      var cur, i, n := bucket, place, buckets.Length;
      ghost var u, bs := 0, buckets[..];
      ghost var up := ShiftUp(bs, bucket, place, d);
      while buckets[i].daf != 0
        invariant 0 <= u <= d && i == At(n, place, u) && 0 <= i < n
        invariant cur == up[i]
        invariant forall j :: 0 <= j < n ==> buckets[j] == (if Dist(n, place, j) < u then up[j] else bs[j])
        decreases d - u
      {
        ShiftUpStep(bs, bucket, place, d, u);
        var displaced := buckets[i];
        buckets[i] := cur;
        cur := Bucket(DistInc(displaced.daf), displaced.idx);
        i := Next(n, i);
        u := u + 1;
      }
      ShiftUpEnd(bs, bucket, place, d, u);
      buckets[i] := cur;
      assert buckets[..] == up;
    }

    /** Places entry number `|tags|`, whose probe stopped at offset `t`. */
    method PlaceEntry(daf: int, i: int, idx: int, ghost tag: Tag, ghost t: int, ghost tags: seq<Tag>)
      requires Indexed(buckets[..], tags, pos, -1) && |tags| < buckets.Length <= LIMIT && idx == |tags|
      requires StopsAt(buckets[..], tag, t) && daf == Probe(tag, t) && i == At(buckets.Length, tag.home, t)
      modifies buckets, this`pos
      ensures Indexed(buckets[..], tags + [tag], pos, -1)
    {
      hide Indexed, FirstEmpty, StopsAt, ShiftUp, PosUp;
      ghost var bs := buckets[..];
      StopsInRange(bs, tag, t);
      ghost var e := EmptyBucket(bs, tags, pos, -1);
      ghost var d := NearestEmpty(bs, i, e);
      DafsFit(bs, tags, pos, -1);
      InsertKeeps(bs, tags, pos, tag, t, d);
      PlaceAndShiftUp(Bucket(daf, idx), i, d);
      pos := PosUp(buckets.Length, pos, i, d);
    }

    /** Walks from the home bucket while the probe is behind the bucket it looks at. */
    method NextWhileLess(k: K, ghost tags: seq<Tag>, ghost keys: seq<K>) returns (daf: int, i: int, ghost t: int)
      requires Sized() && Indexed(buckets[..], tags, pos, -1) && |tags| < buckets.Length
      requires Tagged(tags, keys, k, TagFor(hash, shifts, k))
      ensures StopsAt(buckets[..], TagFor(hash, shifts, k), t)
      ensures daf == Probe(TagFor(hash, shifts, k), t) && i == At(buckets.Length, TagFor(hash, shifts, k).home, t)
      ensures |pos| == |keys| && NotPassed(buckets.Length, pos, keys, k, TagFor(hash, shifts, k), t)
    {
      var n, tag := buckets.Length, TagFor(hash, shifts, k);
      ghost var bs := buckets[..];
      TagInRange(hash, shifts, k);
      ProbeBegins(bs, tags, pos, keys, k, tag);
      FirstProbe(n, tag);
      hide Indexed, DistInc, Probe, At, Next, NotPassed, Tagged, TagFor, Pow2, StopsAt;
      daf, i, t := INC + tag.fp, tag.home, 0;
      BucketFacts(bs, tags, pos, tag, t);
      while daf < buckets[i].daf
        invariant 0 <= t <= n && 0 <= i < n && i == At(n, tag.home, t) && daf == Probe(tag, t)
        invariant NotPassed(n, pos, keys, k, tag, t)
        invariant t > 0 ==> 0 <= At(n, tag.home, t - 1) < n && Probe(tag, t - 1) <= bs[At(n, tag.home, t - 1)].daf
        decreases n - t
      {
        BucketFacts(bs, tags, pos, tag, t);
        StepOver(bs, tags, pos, keys, k, tag, t);
        NextProbe(n, tag, t);
        daf, i, t := DistInc(daf), Next(n, i), t + 1;
        BucketFacts(bs, tags, pos, tag, t);
      }
      ghost var e := EmptyBucket(bs, tags, pos, -1);
      StopsShort(bs, tags, pos, tag, t, e);
    }

    /** Indexes every value afresh, over cleared buckets. */
    method FillBucketsFromValues()
      requires Sized() && |values| < buckets.Length
      requires forall i :: 0 <= i < buckets.Length ==> buckets[i] == EMPTY
      modifies buckets, this`pos
      ensures Indexed(buckets[..], TagsFor(hash, shifts, values), pos, -1)
    {
      pos := [];
      ClearedIndex(buckets[..]);
      ghost var tags: seq<Tag> := [];
      assert TagsFor(hash, shifts, values[..0]) == [];
      hide Indexed, StopsAt, Tagged, NotPassed, TagFor, Pow2;
      for x := 0 to |values|
        invariant tags == TagsFor(hash, shifts, values[..x]) && Indexed(buckets[..], tags, pos, -1)
      {
        var k := values[x].0;
        TaggedFor(hash, shifts, values[..x], k);
        ghost var tag := TagFor(hash, shifts, k);
        var daf, i, t := NextWhileLess(k, tags, KeysFor(values[..x]));
        PlaceEntry(daf, i, x, tag, t, tags);
        TagsGrow(hash, shifts, values, x);
        tags := tags + [tag];
      }
      assert values[..|values|] == values;
    }

    /** Allocates and fills a fresh index of `2^(64 - newShifts)` buckets; the values stay as they are. */
    method Rebuild(newShifts: nat)
      requires (forall k :: hash(k) < HASHES) && (forall n :: n > 0 ==> capacityFor(n) < n)
      requires newShifts <= 62 && |values| < Pow2(64 - newShifts) <= LIMIT && DistinctKeys(values)
      modifies this
      ensures Valid() && values == old(values) && shifts == newShifts && fresh(buckets)
    {
      hide Indexed, DistinctKeys;
      shifts := newShifts;
      var n := Pow2(64 - shifts);
      buckets := new Bucket[n](_ => EMPTY);
      maxCapacity := capacityFor(n);
      FillBucketsFromValues();
    }

    /** Doubles the number of buckets. */
    method IncreaseSize()
      requires Sized() && |values| <= buckets.Length < LIMIT && DistinctKeys(values)
      modifies this
      ensures Valid() && values == old(values) && fresh(buckets)
      ensures shifts == old(shifts) - 1 && buckets.Length == 2 * old(buckets.Length)
    {
      CanDouble(shifts);
      AtLeastFour(shifts);
      hide DistinctKeys, Pow2;
      Rebuild(shifts - 1);
    }

    /** Indexes the value just appended, growing the table if it is full. */
    method IndexLast(daf: int, i: int, ghost t: int)
      requires Sized() && 0 < |values| <= buckets.Length && |values| <= capacityFor(LIMIT) && DistinctKeys(values)
      requires Indexed(buckets[..], TagsFor(hash, shifts, values[..|values| - 1]), pos, -1)
      requires StopsAt(buckets[..], TagFor(hash, shifts, values[|values| - 1].0), t)
      requires daf == Probe(TagFor(hash, shifts, values[|values| - 1].0), t)
      requires i == At(buckets.Length, TagFor(hash, shifts, values[|values| - 1].0).home, t)
      modifies this, buckets
      ensures Valid() && values == old(values) && (buckets == old(buckets) || fresh(buckets))
      ensures buckets.Length == if |values| > old(maxCapacity) then 2 * old(buckets.Length) else old(buckets.Length)
    {
      hide Indexed, DistinctKeys, StopsAt, Pow2, TagFor, At, Probe;
      if |values| > maxCapacity {
        IncreaseSize();
      } else {
        ghost var last := |values| - 1;
        TagsGrow(hash, shifts, values, last);
        assert values[..last + 1] == values;
        PlaceEntry(daf, i, |values| - 1, TagFor(hash, shifts, values[last].0), t,
            TagsFor(hash, shifts, values[..last]));
      }
    }

    /** What a probe has shown once it is ahead of the bucket it looks at. */
    ghost predicate Ahead(k: K, daf: int, i: int, t: int, vs: seq<(K, V)>)
      reads this`shifts, this`buckets, this`pos, buckets
    {
      var tag := TagFor(hash, shifts, k);
      && TagOk(buckets.Length, tag) && 0 <= t <= buckets.Length
      && i == At(buckets.Length, tag.home, t) && 0 <= i < buckets.Length
      && daf == Probe(tag, t) && daf > buckets[i].daf
      && |pos| == |vs| && NotPassed(buckets.Length, pos, KeysFor(vs), k, tag, t)
      && (t > 0 ==> var j := At(buckets.Length, tag.home, t - 1);
                    0 <= j < buckets.Length && Probe(tag, t - 1) <= buckets[j].daf)
    }

    /** The index covers the pairs of `vs`. */
    ghost predicate Covers(vs: seq<(K, V)>)
      reads this`shifts, this`buckets, this`pos, this`maxCapacity, buckets
    {
      Sized() && |vs| < buckets.Length && Indexed(buckets[..], TagsFor(hash, shifts, vs), pos, -1)
    }

    /** Probes until the key is found or the probe is ahead. */
    method TryEmplaceProbe(k: K) returns (found: bool, daf: int, i: int, ghost t: int)
      requires Covers(values)
      ensures found ==> 0 <= i < buckets.Length && 0 <= buckets[i].idx < |values| && values[buckets[i].idx].0 == k
      ensures !found ==> Ahead(k, daf, i, t, values)
    {
      var n, tag := buckets.Length, TagFor(hash, shifts, k);
      ghost var bs, tags, keys := buckets[..], TagsFor(hash, shifts, values), KeysFor(values);
      TagInRange(hash, shifts, k);
      TaggedFor(hash, shifts, values, k);
      ProbeBegins(bs, tags, pos, keys, k, tag);
      FirstProbe(n, tag);
      hide Indexed, DistInc, Probe, At, Next, NotPassed, Tagged, TagFor, Pow2, TagOk;
      found, daf, i, t := false, INC + tag.fp, tag.home, 0;
      while true
        invariant 0 <= t <= n && i == At(n, tag.home, t) && daf == Probe(tag, t) && |pos| == |keys|
        invariant NotPassed(n, pos, keys, k, tag, t)
        invariant t > 0 ==> 0 <= At(n, tag.home, t - 1) < n && Probe(tag, t - 1) <= bs[At(n, tag.home, t - 1)].daf
        decreases n - t
      {
        BucketFacts(bs, tags, pos, tag, t);
        if daf == buckets[i].daf {
          if values[buckets[i].idx].0 == k {
            found := true;
            return;
          }
        } else if daf > buckets[i].daf {
          return;
        }
        StepOver(bs, tags, pos, keys, k, tag, t);
        NextProbe(n, tag, t);
        daf, i, t := DistInc(daf), Next(n, i), t + 1;
      }
    }

    /** Inserts a pair unless its key is there already. */
    method TryEmplace(k: K, v: V) returns (x: nat, inserted: bool)
      requires Valid() && (k in Contents() || |values| < capacityFor(LIMIT))
      modifies this, buckets
      ensures Valid() && (buckets == old(buckets) || fresh(buckets))
      ensures inserted <==> k !in old(Contents())
      ensures values == if inserted then old(values) + [(k, v)] else old(values)
      ensures buckets.Length == if inserted && |values| > old(maxCapacity) then 2 * old(buckets.Length)
                                else old(buckets.Length)
      ensures Contents() == if inserted then old(Contents())[k := v] else old(Contents())
      ensures x < |values| && values[x].0 == k
    {
      hide Indexed, Ahead, Sized, DistinctKeys;
      var found, daf, i, t := TryEmplaceProbe(k);
      if found {
        MapOfKeys(values, k);
        return buckets[i].idx, false;
      }
      ghost var vs := values;
      values := values + [(k, v)];
      IndexNew(k, daf, i, t, v, vs);
      return |values| - 1, true;
    }

    /** Indexes the pair just appended to `vs`, whose key a probe has shown to be absent. */
    method IndexNew(k: K, daf: int, i: int, ghost t: int, ghost v: V, ghost vs: seq<(K, V)>)
      requires Covers(vs) && DistinctKeys(vs) && values == vs + [(k, v)]
      requires (k in MapOf(vs) || |vs| < capacityFor(LIMIT)) && Ahead(k, daf, i, t, vs)
      modifies this, buckets
      ensures Valid() && (buckets == old(buckets) || fresh(buckets)) && values == old(values)
      ensures k !in MapOf(vs) && Contents() == MapOf(vs)[k := v]
      ensures buckets.Length == if |values| > old(maxCapacity) then 2 * old(buckets.Length) else old(buckets.Length)
    {
      hide Indexed, Probe, At, NotPassed, Tagged, TagFor, Pow2, StopsAt, DistinctKeys, TagOk;
      ghost var bs, tags, keys, tag := buckets[..], TagsFor(hash, shifts, vs), KeysFor(vs), TagFor(hash, shifts, k);
      TaggedFor(hash, shifts, vs, k);
      Overtaken(bs, tags, pos, keys, k, tag, t);
      AppendDistinct(vs, k, v);
      ghost var e := EmptyBucket(bs, tags, pos, -1);
      StopsShort(bs, tags, pos, tag, t, e);
      assert values[..|values| - 1] == vs;
      IndexLast(daf, i, t);
    }

    /** Probes for the key of the pair just appended to `vs`. */
    method EmplaceProbe(k: K, ghost v: V, ghost vs: seq<(K, V)>) returns (found: bool, daf: int, i: int, ghost t: int)
      requires Covers(vs) && values == vs + [(k, v)]
      ensures found ==> 0 <= i < buckets.Length && 0 <= buckets[i].idx < |vs| && vs[buckets[i].idx].0 == k
      ensures !found ==> Ahead(k, daf, i, t, vs)
    {
      var n, tag := buckets.Length, TagFor(hash, shifts, k);
      ghost var bs, tags, keys := buckets[..], TagsFor(hash, shifts, vs), KeysFor(vs);
      TagInRange(hash, shifts, k);
      TaggedFor(hash, shifts, vs, k);
      ProbeBegins(bs, tags, pos, keys, k, tag);
      FirstProbe(n, tag);
      hide Indexed, DistInc, Probe, At, Next, NotPassed, Tagged, TagFor, Pow2, TagOk;
      found, daf, i, t := false, INC + tag.fp, tag.home, 0;
      BucketFacts(bs, tags, pos, tag, t);
      while daf <= buckets[i].daf
        invariant 0 <= t <= n && 0 <= i < n && i == At(n, tag.home, t) && daf == Probe(tag, t) && |pos| == |keys|
        invariant NotPassed(n, pos, keys, k, tag, t)
        invariant t > 0 ==> 0 <= At(n, tag.home, t - 1) < n && Probe(tag, t - 1) <= bs[At(n, tag.home, t - 1)].daf
        decreases n - t
      {
        BucketFacts(bs, tags, pos, tag, t);
        if daf == buckets[i].daf && values[buckets[i].idx].0 == k {
          found := true;
          return;
        }
        StepOver(bs, tags, pos, keys, k, tag, t);
        NextProbe(n, tag, t);
        daf, i, t := DistInc(daf), Next(n, i), t + 1;
        BucketFacts(bs, tags, pos, tag, t);
      }
    }

    /** Inserts a pair unless its key is there already; the pair is appended before the probe and taken off again
        if the key is found. */
    method Emplace(k: K, v: V) returns (x: nat, inserted: bool)
      requires Valid() && (k in Contents() || |values| < capacityFor(LIMIT))
      modifies this, buckets
      ensures Valid() && (buckets == old(buckets) || fresh(buckets))
      ensures inserted <==> k !in old(Contents())
      ensures values == if inserted then old(values) + [(k, v)] else old(values)
      ensures buckets.Length == if inserted && |values| > old(maxCapacity) then 2 * old(buckets.Length)
                                else old(buckets.Length)
      ensures Contents() == if inserted then old(Contents())[k := v] else old(Contents())
      ensures x < |values| && values[x].0 == k
    {
      hide Indexed, Ahead, Sized, DistinctKeys;
      ghost var vs := values;
      values := values + [(k, v)];
      assert Covers(vs);
      var found, daf, i, t := EmplaceProbe(k, v, vs);
      if found {
        values := values[..|values| - 1];
        assert values == vs;
        MapOfKeys(values, k);
        return buckets[i].idx, false;
      }
      IndexNew(k, daf, i, t, v, vs);
      return |values| - 1, true;
    }

    /** Inserts a pair or overwrites the value its key has. */
    method InsertOrAssign(k: K, v: V) returns (x: nat, inserted: bool)
      requires Valid() && (k in Contents() || |values| < capacityFor(LIMIT))
      modifies this, buckets
      ensures Valid() && (buckets == old(buckets) || fresh(buckets))
      ensures inserted <==> k !in old(Contents())
      ensures Contents() == old(Contents())[k := v]
      ensures x < |values| && values[x] == (k, v) && (!inserted ==> x < |old(values)| && old(values)[x].0 == k)
      ensures values == if inserted then old(values) + [(k, v)] else old(values)[x := (k, v)]
    {
      hide Indexed, Pow2, DistinctKeys, TagFor;
      x, inserted := TryEmplace(k, v);
      if inserted {
        LastOnly(values, x);
      } else {
        MapOfAssign(values, x, v);
        MapOfKeys(values, k);
        TagsAssign(hash, shifts, values, x, v);
        values := values[x := (values[x].0, v)];
      }
    }

    /** Forgets everything; the buckets are kept and zeroed. */
    method Clear()
      requires Valid()
      modifies this`values, this`pos, buckets
      ensures Valid() && values == [] && Contents() == map[]
    {
      hide Indexed, Pow2;
      values, pos := [], [];
      forall i | 0 <= i < buckets.Length {
        buckets[i] := EMPTY;
      }
      AtLeastFour(shifts);
      ClearedIndex(buckets[..]);
      assert TagsFor(hash, shifts, values) == [];
    }

    /** How many values a table with the given shift count takes before it is full. */
    function Room(s: nat): nat
      requires s <= 64
    {
      capacityFor(Pow2(64 - s))
    }

    /** The largest shift count whose bucket array has room for `s` values. */
    method CalcShiftsForSize(s: nat) returns (r: nat)
      requires s <= capacityFor(LIMIT)
      ensures r <= 62 && s <= Room(r) && Pow2(64 - r) <= LIMIT
      ensures forall q :: r < q <= 62 ==> Room(q) < s
    {
      Pow2OfLimit();
      assert s <= Room(41);
      hide Room;
      r := 62;
      while r > 0 && Room(r) < s
        invariant 41 <= r <= 62
        invariant forall q :: r < q <= 62 ==> Room(q) < s
      {
        r := r - 1;
      }
      if r > 41 {
        Pow2Strict(64 - r, 23);
      }
    }

    /** Rebuilds the index, with the fewest buckets that have room for `count` values and for those already there. */
    method Rehash(count: nat)
      requires Valid() && |values| <= capacityFor(LIMIT) && count <= capacityFor(LIMIT)
      modifies this
      ensures Valid() && values == old(values) && (buckets == old(buckets) || fresh(buckets))
      ensures Contents() == old(Contents())
      ensures buckets.Length == Pow2(64 - shifts)
      ensures |values| <= capacityFor(buckets.Length) && count <= capacityFor(buckets.Length)
      ensures forall e: nat :: 2 <= e < 64 - shifts ==> capacityFor(Pow2(e)) < |values| || capacityFor(Pow2(e)) < count
    {
      hide Indexed, DistinctKeys, Pow2, TagFor, Room;
      var needed := if count > |values| then count else |values|;
      var s := CalcShiftsForSize(needed);
      RoomOf(s, needed);
      if s != shifts {
        Rebuild(s);
      }
    }

    lemma RoomOf(s: nat, needed: nat)
      requires s <= 62 && needed <= Room(s) && forall q :: s < q <= 62 ==> Room(q) < needed
      requires forall n :: n > 0 ==> capacityFor(n) < n
      ensures needed <= capacityFor(Pow2(64 - s)) < Pow2(64 - s)
      ensures forall e: nat :: 2 <= e < 64 - s ==> capacityFor(Pow2(e)) < needed
    {
      Pow2Positive(64 - s);
      forall e: nat | 2 <= e < 64 - s
        ensures capacityFor(Pow2(e)) < needed
      {
        assert Room(64 - e) < needed;
      }
    }

    // ---- Removal ----

    /** Vacates bucket `b` and moves the run of displaced buckets behind it down by one. */
    method ShiftDownFrom(b: int, ghost d: int)
      requires RunEnds(buckets[..], b, d)
      requires forall i :: 0 <= i < buckets.Length ==> 0 <= buckets[i].daf < WORD - INC
      modifies buckets
      ensures buckets[..] == ShiftDown(old(buckets[..]), b, d)
    {
      var n := buckets.Length;
      var i, j := b, Next(n, b);
      ghost var u, bs := 0, buckets[..];
      ghost var down := ShiftDown(bs, b, d);
      while buckets[j].daf >= 2 * INC
        invariant 0 <= u <= d && i == At(n, b, u) && 0 <= i < n && j == At(n, b, u + 1) && 0 <= j < n
        invariant Dist(n, b, j) == u + 1
        invariant forall k :: 0 <= k < n ==> buckets[k] == (if Dist(n, b, k) < u then down[k] else bs[k])
        decreases d - u
      {
        ShiftDownStep(bs, b, d, u);
        buckets[i] := Bucket(DistDec(buckets[j].daf), buckets[j].idx);
        i, j := j, Next(n, j);
        u := u + 1;
      }
      ShiftDownEnd(bs, b, d, u);
      buckets[i] := EMPTY;
      assert buckets[..] == down;
    }

    /** Looks for the bucket of entry `x` by its number alone. */
    method ScanFor(home: int, x: int, ghost tags: seq<Tag>, ghost hole: int) returns (i: int)
      requires Indexed(buckets[..], tags, pos, hole) && 0 <= x < |tags| && x != hole && home == tags[x].home
      ensures |pos| == |tags| && i == pos[x] && 0 <= i < buckets.Length
    {
      var n := buckets.Length;
      ghost var t, bs := 0, buckets[..];
      ScanRange(bs, tags, pos, hole, x);
      i := home;
      while buckets[i].idx != x
        invariant |pos| == |tags| && 0 <= t <= Dist(n, home, pos[x]) && i == At(n, home, t) && 0 <= i < n
        decreases Dist(n, home, pos[x]) - t
      {
        ScanStep(bs, tags, pos, hole, x, t);
        hide Indexed;
        i := Next(n, i);
        t := t + 1;
      }
      ScanStep(bs, tags, pos, hole, x, t);
    }

    /** Empties bucket `b`; its entry is left without a bucket. */
    method Vacate(b: int, ghost tags: seq<Tag>)
      requires Indexed(buckets[..], tags, pos, -1) && |tags| < buckets.Length <= LIMIT
      requires 0 <= b < buckets.Length && buckets[b].daf != 0
      modifies buckets, this`pos
      ensures Indexed(buckets[..], tags, pos, old(buckets[b].idx))
    {
      hide Indexed, RunEnds, ShiftDown, PosDown;
      ghost var bs := buckets[..];
      ghost var e := EmptyBucket(bs, tags, pos, -1);
      ghost var d := NearestRunEnd(bs, b, e);
      DafsFit(bs, tags, pos, -1);
      RemoveKeeps(bs, tags, pos, b, d);
      ShiftDownFrom(b, d);
      pos := PosDown(buckets.Length, pos, b, d);
    }

    /** Moves the last value to position `x`, which has no bucket, and renumbers its bucket. */
    method MoveLastTo(x: nat)
      requires x < |values| - 1 && Indexed(buckets[..], TagsFor(hash, shifts, values), pos, x)
      modifies buckets, this`values, this`pos
      ensures values == Without(old(values), x)
      ensures Indexed(buckets[..], Without(TagsFor(hash, shifts, old(values)), x), pos, -1)
    {
      hide TagFor, Indexed;
      var last := |values| - 1;
      ghost var bs, tags := buckets[..], TagsFor(hash, shifts, values);
      values := values[x := values[last]];
      MoveLast(bs, tags, pos, x);
      var i := ScanFor(TagFor(hash, shifts, values[x].0).home, last, tags, x);
      buckets[i] := buckets[i].(idx := x);
      assert buckets[..] == bs[i := bs[i].(idx := x)];
      pos := pos[..last][x := pos[last]];
      values := values[..last];
    }

    /** Removes the entry of bucket `b`: the run behind it moves down and the last value takes its place. */
    method DoErase(b: int)
      requires Valid() && 0 <= b < buckets.Length && buckets[b].daf != 0
      modifies buckets, this`values, this`pos
      ensures Valid() && old(0 <= buckets[b].idx < |values|)
      ensures values == Without(old(values), old(buckets[b].idx))
      ensures Contents() == old(Contents()) - {old(values[buckets[b].idx].0)}
    {
      hide Indexed, DistinctKeys, Pow2, TagFor;
      var x := buckets[b].idx;
      ghost var tags := TagsFor(hash, shifts, values);
      BucketHolds(buckets[..], tags, pos, -1, b);
      WithoutDistinct(values, x);
      MapOfWithout(values, x);
      TagsWithout(hash, shifts, values, x);
      Vacate(b, tags);
      if x != |values| - 1 {
        MoveLastTo(x);
      } else {
        DropLast(buckets[..], tags, pos);
        pos := pos[..x];
        values := values[..x];
      }
    }

    /** Looks for the bucket of a key: first while the probe is behind, then along equal buckets. */
    method EraseProbe(k: K) returns (found: bool, i: int)
      requires Covers(values)
      ensures found ==> 0 <= i < buckets.Length && buckets[i].daf != 0
      ensures found ==> 0 <= buckets[i].idx < |values| && values[buckets[i].idx].0 == k
      ensures !found ==> forall x :: 0 <= x < |values| ==> values[x].0 != k
    {
      var n, tag := buckets.Length, TagFor(hash, shifts, k);
      ghost var bs, tags, keys := buckets[..], TagsFor(hash, shifts, values), KeysFor(values);
      TagInRange(hash, shifts, k);
      TaggedFor(hash, shifts, values, k);
      hide Indexed, DistInc, Probe, At, Next, NotPassed, Tagged, TagFor, Pow2;
      var daf: int;
      ghost var t: int;
      daf, i, t := NextWhileLess(k, tags, keys);
      BucketFacts(bs, tags, pos, tag, t);
      while daf == buckets[i].daf && values[buckets[i].idx].0 != k
        invariant 0 <= t <= n && i == At(n, tag.home, t) && 0 <= i < n && daf == Probe(tag, t) && |pos| == |keys|
        invariant NotPassed(n, pos, keys, k, tag, t) && buckets[i].daf <= daf && daf > 0
        invariant buckets[i].daf != 0 ==> 0 <= buckets[i].idx < |values|
        decreases n - t
      {
        BucketFacts(bs, tags, pos, tag, t);
        StepOver(bs, tags, pos, keys, k, tag, t);
        NextProbe(n, tag, t);
        NeverBehind(bs, tags, pos, tag, t);
        daf, i, t := DistInc(daf), Next(n, i), t + 1;
        BucketFacts(bs, tags, pos, tag, t);
      }
      found := daf == buckets[i].daf;
      if !found {
        Overtaken(bs, tags, pos, keys, k, tag, t);
        assert forall x :: 0 <= x < |values| ==> keys[x] == values[x].0;
      }
    }

    /** Removes a key if it is there. */
    method EraseKey(k: K) returns (count: nat, ghost x: nat)
      requires Valid()
      modifies buckets, this`values, this`pos
      ensures Valid() && count == (if k in old(Contents()) then 1 else 0)
      ensures Contents() == old(Contents()) - {k}
      ensures count == 0 ==> values == old(values)
      ensures count == 1 ==> x < |old(values)| && old(values)[x].0 == k && values == Without(old(values), x)
    {
      hide Indexed, Sized, DistinctKeys, Without;
      MapOfKeys(values, k);
      count, x := 0, 0;
      if values == [] {
        return;
      }
      var found, i := EraseProbe(k);
      if found {
        count, x := 1, buckets[i].idx;
        DoErase(i);
      }
    }

    /** Removes the pair at a position, whose bucket is found by scanning for the position's number. */
    method EraseAt(x: nat)
      requires Valid() && x < |values|
      modifies buckets, this`values, this`pos
      ensures Valid() && values == Without(old(values), x) && Contents() == old(Contents()) - {old(values[x].0)}
    {
      ghost var tags := TagsFor(hash, shifts, values);
      var i := ScanFor(TagFor(hash, shifts, values[x].0).home, x, tags, -1);
      assert buckets[i].daf != 0 && buckets[i].idx == x by { HasBucket(buckets[..], tags, pos, x); }
      hide Indexed, DistinctKeys;
      DoErase(i);
    }
  }
}
