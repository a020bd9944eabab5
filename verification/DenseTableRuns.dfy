/** Whole runs of the hash table against a plain map. */
module DenseTableRuns {
  import opened Basics
  import opened DenseTable

  datatype Op<K, V> = Lookup(k: K) | TryEmplace(k: K, v: V) | Emplace(k: K, v: V) | Assign(k: K, v: V)
                    | Erase(k: K) | EraseAt(x: nat) | Clear | Rehash(count: nat)

  datatype Answer<V> = Hit(v: V) | Miss | Inserted(yes: bool) | Erased(count: nat) | Done

  // ---- A plain map ----

  /** What a plain map would do and answer. */
  ghost function MapStep<K, V>(m: map<K, V>, op: Op<K, V>): (map<K, V>, Answer<V>)
    requires !op.EraseAt?
  {
    match op
    case Lookup(k) => (m, if k in m then Hit(m[k]) else Miss)
    case TryEmplace(k, v) => (if k in m then m else m[k := v], Inserted(k !in m))
    case Emplace(k, v) => (if k in m then m else m[k := v], Inserted(k !in m))
    case Assign(k, v) => (m[k := v], Inserted(k !in m))
    case Erase(k) => (m - {k}, Erased(if k in m then 1 else 0))
    case Clear => (map[], Done)
    case Rehash(_) => (m, Done)
  }

  ghost predicate ByKey<K, V>(ops: seq<Op<K, V>>) { forall i :: 0 <= i < |ops| ==> !ops[i].EraseAt? }

  ghost function MapRun<K, V>(m: map<K, V>, ops: seq<Op<K, V>>): (map<K, V>, seq<Answer<V>>)
    requires ByKey(ops)
  {
    if ops == [] then (m, [])
    else
      var before := MapRun(m, ops[..|ops| - 1]);
      var after := MapStep(before.0, ops[|ops| - 1]);
      (after.0, before.1 + [after.1])
  }

  // ---- An ordered dictionary: a list of pairs searched from the front ----

  ghost function Position<K, V>(vs: seq<(K, V)>, k: K): (x: nat)
    ensures x <= |vs| && (x < |vs| ==> vs[x].0 == k)
    ensures x == |vs| ==> forall y :: 0 <= y < |vs| ==> vs[y].0 != k
  {
    if exists x :: 0 <= x < |vs| && vs[x].0 == k then var x :| 0 <= x < |vs| && vs[x].0 == k; x else |vs|
  }

  lemma PositionIs<K, V>(vs: seq<(K, V)>, k: K, x: nat)
    requires DistinctKeys(vs) && x < |vs| && vs[x].0 == k
    ensures Position(vs, k) == x
  {
  }

  /** What the list does; it also says where each pair is, so a pair can be erased by its position. */
  ghost function ListStep<K, V>(vs: seq<(K, V)>, op: Op<K, V>): (seq<(K, V)>, Answer<V>)
    requires Possible(vs, op)
  {
    match op
    case Lookup(k) => var x := Position(vs, k); (vs, if x < |vs| then Hit(vs[x].1) else Miss)
    case TryEmplace(k, v) => var x := Position(vs, k); (if x < |vs| then vs else vs + [(k, v)], Inserted(x == |vs|))
    case Emplace(k, v) => var x := Position(vs, k); (if x < |vs| then vs else vs + [(k, v)], Inserted(x == |vs|))
    case Assign(k, v) =>
      var x := Position(vs, k);
      (if x < |vs| then vs[x := (k, v)] else vs + [(k, v)], Inserted(x == |vs|))
    case Erase(k) =>
      var x := Position(vs, k);
      if x < |vs| then (Without(vs, x), Erased(1)) else (vs, Erased(0))
    case EraseAt(x) => (Without(vs, x), Erased(1))
    case Clear => ([], Done)
    case Rehash(_) => (vs, Done)
  }

  /** An iterator to erase has to point at a pair. */
  ghost predicate Possible<K, V>(vs: seq<(K, V)>, op: Op<K, V>) { op.EraseAt? ==> op.x < |vs| }

  /** Erasing at a position is erasing the key that is there. */
  ghost function Keyed<K, V>(vs: seq<(K, V)>, op: Op<K, V>): (r: Op<K, V>)
    requires Possible(vs, op)
    ensures !r.EraseAt?
  {
    if op.EraseAt? then Erase(vs[op.x].0) else op
  }

  ghost predicate AllPossible<K, V>(vs: seq<(K, V)>, ops: seq<Op<K, V>>)
    decreases |ops|, 0
  {
    ops == [] ||
    (AllPossible(vs, ops[..|ops| - 1]) && Possible(ListRun(vs, ops[..|ops| - 1]).0, ops[|ops| - 1]))
  }

  ghost function ListRun<K, V>(vs: seq<(K, V)>, ops: seq<Op<K, V>>): (seq<(K, V)>, seq<Answer<V>>)
    requires AllPossible(vs, ops)
    decreases |ops|, 1
  {
    if ops == [] then (vs, [])
    else
      var before := ListRun(vs, ops[..|ops| - 1]);
      var after := ListStep(before.0, ops[|ops| - 1]);
      (after.0, before.1 + [after.1])
  }

  ghost function AllKeyed<K, V>(vs: seq<(K, V)>, ops: seq<Op<K, V>>): (r: seq<Op<K, V>>)
    requires AllPossible(vs, ops)
    ensures |r| == |ops| && ByKey(r)
  {
    if ops == [] then []
    else AllKeyed(vs, ops[..|ops| - 1]) + [Keyed(ListRun(vs, ops[..|ops| - 1]).0, ops[|ops| - 1])]
  }

  // ---- The list stands for the map ----

  lemma InMap<K, V>(vs: seq<(K, V)>, k: K)
    requires DistinctKeys(vs)
    ensures var x := Position(vs, k); k in MapOf(vs) <==> x < |vs|
    ensures var x := Position(vs, k); x < |vs| ==> MapOf(vs)[k] == vs[x].1
  {
    MapOfKeys(vs, k);
    var x := Position(vs, k);
    if x < |vs| {
      MapOfHas(vs, x);
    }
  }

  lemma {:induction false} AppendNew<K, V>(vs: seq<(K, V)>, k: K, v: V)
    requires DistinctKeys(vs) && forall y :: 0 <= y < |vs| ==> vs[y].0 != k
    ensures DistinctKeys(vs + [(k, v)])
  {
  }

  /** One step of the list is the same step of the map it stands for. */
  lemma StepAgrees<K, V>(vs: seq<(K, V)>, op: Op<K, V>)
    requires DistinctKeys(vs) && Possible(vs, op)
    ensures DistinctKeys(ListStep(vs, op).0)
    ensures (MapOf(ListStep(vs, op).0), ListStep(vs, op).1) == MapStep(MapOf(vs), Keyed(vs, op))
  {
    hide DistinctKeys, MapOf, Position, Without;
    match op
    case Lookup(k) => InMap(vs, k);
    case TryEmplace(k, v) => Inserts(vs, k, v);
    case Emplace(k, v) => Inserts(vs, k, v);
    case Assign(k, v) =>
      Inserts(vs, k, v);
      if Position(vs, k) < |vs| {
        MapOfAssign(vs, Position(vs, k), v);
      }
    case Erase(k) =>
      InMap(vs, k);
      if Position(vs, k) < |vs| {
        WithoutDistinct(vs, Position(vs, k));
        MapOfWithout(vs, Position(vs, k));
      } else {
        assert MapOf(vs) - {k} == MapOf(vs);
      }
    case EraseAt(x) =>
      PositionIs(vs, vs[x].0, x);
      InMap(vs, vs[x].0);
      WithoutDistinct(vs, x);
      MapOfWithout(vs, x);
    case Clear => EmptyList<K, V>();
    case Rehash(_) =>
  }

  lemma EmptyList<K, V>()
    ensures DistinctKeys<K, V>([]) && MapOf<K, V>([]) == map[]
  {
  }

  lemma Inserts<K, V>(vs: seq<(K, V)>, k: K, v: V)
    requires DistinctKeys(vs)
    ensures var x := Position(vs, k); k in MapOf(vs) <==> x < |vs|
    ensures Position(vs, k) == |vs| ==> DistinctKeys(vs + [(k, v)]) && MapOf(vs + [(k, v)]) == MapOf(vs)[k := v]
  {
    InMap(vs, k);
    if Position(vs, k) == |vs| {
      AppendNew(vs, k, v);
      MapOfAppend(vs, (k, v));
    }
  }

  /** Every run of the list is the run of the map, positions read as the keys found there. */
  lemma {:induction false} RunAgrees<K, V>(vs: seq<(K, V)>, ops: seq<Op<K, V>>)
    requires DistinctKeys(vs) && AllPossible(vs, ops)
    ensures DistinctKeys(ListRun(vs, ops).0)
    ensures (MapOf(ListRun(vs, ops).0), ListRun(vs, ops).1) == MapRun(MapOf(vs), AllKeyed(vs, ops))
    decreases |ops|
  {
    hide DistinctKeys, MapOf, ListStep, MapStep, Keyed;
    if ops != [] {
      var most, last := ops[..|ops| - 1], ops[|ops| - 1];
      RunAgrees(vs, most);
      var now := ListRun(vs, most).0;
      StepAgrees(now, last);
      var keyed := AllKeyed(vs, ops);
      assert keyed[..|keyed| - 1] == AllKeyed(vs, most);
    }
  }

  lemma {:induction false} AlreadyKeyed<K, V>(vs: seq<(K, V)>, ops: seq<Op<K, V>>)
    requires ByKey(ops)
    ensures AllPossible(vs, ops) && AllKeyed(vs, ops) == ops
    decreases |ops|
  {
    if ops != [] {
      var most := ops[..|ops| - 1];
      AlreadyKeyed(vs, most);
      assert ops == most + [ops[|ops| - 1]];
    }
  }

  // ---- The table against both ----

  /** What the table asks before an operation: only a new key needs room, and a rehash must be within the limit. */
  ghost predicate Fits<K, V>(vs: seq<(K, V)>, op: Op<K, V>, room: int)
  {
    match op
    case TryEmplace(k, _) => k in MapOf(vs) || |vs| < room
    case Emplace(k, _) => k in MapOf(vs) || |vs| < room
    case Assign(k, _) => k in MapOf(vs) || |vs| < room
    case EraseAt(x) => x < |vs|
    case Rehash(count) => |vs| <= room && count <= room
    case _ => true
  }

  method Perform<K(!new, ==), V>(table: Table<K, V>, op: Op<K, V>) returns (answer: Answer<V>)
    requires table.Valid() && Fits(table.values, op, table.capacityFor(LIMIT))
    modifies table, table.buckets
    ensures table.Valid() && (table.buckets == old(table.buckets) || fresh(table.buckets))
    ensures (table.values, answer) == ListStep(old(table.values), op)
    ensures op.Rehash? ==> op.count <= table.capacityFor(table.buckets.Length)
  {
    hide DenseIndex.Indexed, Table.Sized, DistinctKeys, Position, MapOf, Without;
    match op
    case Lookup(k) =>
      var x := table.Find(k);
      Found(table.values, k, x);
      answer := if x >= 0 then Hit(table.values[x].1) else Miss;
    case TryEmplace(k, v) =>
      InMap(table.values, k);
      var x, inserted := table.TryEmplace(k, v);
      answer := Inserted(inserted);
    case Emplace(k, v) =>
      InMap(table.values, k);
      var x, inserted := table.Emplace(k, v);
      answer := Inserted(inserted);
    case Assign(k, v) =>
      InMap(table.values, k);
      ghost var vs := table.values;
      var x, inserted := table.InsertOrAssign(k, v);
      if !inserted {
        PositionIs(vs, k, x);
      }
      answer := Inserted(inserted);
    case Erase(k) =>
      InMap(table.values, k);
      ghost var vs := table.values;
      var count, x := table.EraseKey(k);
      if count == 1 {
        PositionIs(vs, k, x);
      }
      answer := Erased(count);
    case EraseAt(x) =>
      table.EraseAt(x);
      answer := Erased(1);
    case Clear =>
      table.Clear();
      answer := Done;
    case Rehash(count) =>
      table.Rehash(count);
      answer := Done;
  }

  lemma Found<K, V>(vs: seq<(K, V)>, k: K, x: int)
    requires DistinctKeys(vs)
    requires x >= 0 ==> x < |vs| && vs[x].0 == k
    requires x < 0 ==> forall y :: 0 <= y < |vs| ==> vs[y].0 != k
    ensures Position(vs, k) == if x >= 0 then x else |vs|
  {
    if x >= 0 {
      PositionIs(vs, k, x);
    }
  }

  ghost predicate AllFit<K, V>(vs: seq<(K, V)>, ops: seq<Op<K, V>>, room: int)
    requires AllPossible(vs, ops)
  {
    forall i :: 0 <= i < |ops| ==> AllPossible(vs, ops[..i]) && Fits(ListRun(vs, ops[..i]).0, ops[i], room)
  }

  lemma {:induction false} SameSize<K, V>(vs: seq<(K, V)>)
    requires DistinctKeys(vs)
    ensures |MapOf(vs)| == |vs|
  {
    if vs != [] {
      var most, last := vs[..|vs| - 1], vs[|vs| - 1];
      SameSize(most);
      MapOfKeys(most, last.0);
      assert MapOf(vs) == MapOf(most)[last.0 := last.1];
      assert MapOf(vs).Keys == MapOf(most).Keys + {last.0};
    }
  }

  /** A run by keys fits whenever the plain map it stands for stays below the capacity, however long it is. */
  lemma SmallRunsFit<K, V>(vs: seq<(K, V)>, ops: seq<Op<K, V>>, room: int)
    requires DistinctKeys(vs) && ByKey(ops)
    requires forall i :: 0 <= i < |ops| ==> ByKey(ops[..i]) && |MapRun(MapOf(vs), ops[..i]).0| < room
    requires forall i :: 0 <= i < |ops| && ops[i].Rehash? ==> ops[i].count <= room
    ensures AllPossible(vs, ops) && AllFit(vs, ops, room)
  {
    AlreadyKeyed(vs, ops);
    hide DistinctKeys, MapOf, MapRun, ListRun, AllPossible;
    forall i | 0 <= i < |ops|
      ensures AllPossible(vs, ops[..i]) && Fits(ListRun(vs, ops[..i]).0, ops[i], room)
    {
      AlreadyKeyed(vs, ops[..i]);
      RunAgrees(vs, ops[..i]);
      SameSize(ListRun(vs, ops[..i]).0);
    }
  }

  lemma NextInRun<K, V>(vs: seq<(K, V)>, ops: seq<Op<K, V>>, i: nat)
    requires i < |ops| && AllPossible(vs, ops[..i]) && Possible(ListRun(vs, ops[..i]).0, ops[i])
    ensures AllPossible(vs, ops[..i + 1])
    ensures var before := ListRun(vs, ops[..i]); var after := ListStep(before.0, ops[i]);
      ListRun(vs, ops[..i + 1]) == (after.0, before.1 + [after.1])
  {
    hide ListStep;
    assert ops[..i + 1][..i] == ops[..i];
  }

  method RunAsList<K(!new, ==), V>(table: Table<K, V>, ops: seq<Op<K, V>>) returns (answers: seq<Answer<V>>)
    requires table.Valid() && AllPossible(table.values, ops) && AllFit(table.values, ops, table.capacityFor(LIMIT))
    modifies table, table.buckets
    ensures table.Valid() && (table.values, answers) == ListRun(old(table.values), ops)
  {
    hide Table.Valid, ListStep, AllPossible, ListRun;
    ghost var vs := table.values;
    answers := [];
    StartOfRun(vs, ops);
    for i := 0 to |ops|
      invariant table.Valid() && (table.buckets == old(table.buckets) || fresh(table.buckets))
      invariant AllPossible(vs, ops[..i]) && (table.values, answers) == ListRun(vs, ops[..i])
    {
      NextInRun(vs, ops, i);
      var answer := Perform(table, ops[i]);
      answers := answers + [answer];
    }
    assert ops[..|ops|] == ops;
  }

  lemma StartOfRun<K, V>(vs: seq<(K, V)>, ops: seq<Op<K, V>>)
    ensures AllPossible(vs, ops[..0]) && ListRun(vs, ops[..0]) == (vs, [])
  {
  }

  /** Over any run of operations the table gives exactly the answers a plain map gives and ends up holding the same
      pairs; it also keeps them in the order of the simple list. */
  method Run<K(!new, ==), V>(table: Table<K, V>, ops: seq<Op<K, V>>) returns (answers: seq<Answer<V>>)
    requires table.Valid() && AllPossible(table.values, ops) && AllFit(table.values, ops, table.capacityFor(LIMIT))
    modifies table, table.buckets
    ensures table.Valid()
    ensures (table.values, answers) == ListRun(old(table.values), ops)
    ensures (table.Contents(), answers) == MapRun(old(table.Contents()), AllKeyed(old(table.values), ops))
    ensures ByKey(ops) ==> (table.Contents(), answers) == MapRun(old(table.Contents()), ops)
  {
    hide DenseIndex.Indexed, Table.Sized, DistinctKeys, AllPossible, ListRun, MapRun, AllKeyed, AllFit, MapOf;
    ghost var vs := table.values;
    RunAgrees(vs, ops);
    if ByKey(ops) {
      AlreadyKeyed(vs, ops);
    }
    answers := RunAsList(table, ops);
  }
}
