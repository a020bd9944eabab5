/** The two node vectors of the search: the heap-ordered open set and the dense storage of the closed
    hash set. */
module NodeVectors {
  import opened Basics
  import opened Nodes
  import opened NodePools
  import opened OpenHeap

  ghost predicate NoDup(s: seq<int>)
  {
    multiset(s) == multiset(Elements(s))
  }

  /** The open vector holds allocated, distinct nodes in heap order. */
  ghost predicate OpenOk<S>(mem: map<int, Node<S>>, s: seq<int>)
  {
    NoDup(s) && Held(mem, s) && IsHeap(Keys(mem, s))
  }

  lemma SameElements(r: seq<int>, s: seq<int>)
    requires multiset(r) == multiset(s)
    ensures Elements(r) == Elements(s)
  {
    assert forall a :: a in r <==> a in multiset(r);
    assert forall a :: a in s <==> a in multiset(s);
  }

  lemma AppendElements(s: seq<int>, a: int)
    ensures Elements(s + [a]) == Elements(s) + {a}
    ensures NoDup(s) && a !in s ==> NoDup(s + [a])
  {
    assert Elements(s + [a]) == Elements(s) + {a};
    assert multiset(s + [a]) == multiset(s) + multiset{a};
  }

  lemma RemoveElements(s: seq<int>, r: seq<int>, a: int)
    requires NoDup(s) && a in s && multiset(r) == multiset(s) - multiset{a}
    ensures Elements(r) == Elements(s) - {a} && NoDup(r)
  {
    assert multiset(s)[a] == 1;
    assert forall b :: b in r <==> b in multiset(r);
    assert Elements(r) == Elements(s) - {a};
    assert multiset(r) == multiset(Elements(s) - {a});
  }

  lemma EraseElements(s: seq<int>, i: nat)
    requires i < |s| && NoDup(s)
    ensures Elements(Without(s, i)) == Elements(s) - {s[i]} && NoDup(Without(s, i))
  {
    var n := |s| - 1;
    assert s == s[..n] + [s[n]];
    if i < n {
      assert multiset(s[..n][i := s[n]]) == multiset(s[..n]) - multiset{s[i]} + multiset{s[n]};
    }
    RemoveElements(s, Without(s, i), s[i]);
  }

  /** Two positions of a duplicate-free vector differ. */
  lemma NoDupHead(s: seq<int>)
    requires NoDup(s) && s != []
    ensures s[0] !in s[1..] && NoDup(s[1..])
  {
    assert s == [s[0]] + s[1..];
    RemoveElements(s, s[1..], s[0]);
  }

  /** Changing nodes that are not on the open set leaves its order alone. */
  lemma OpenFrame<S>(mem: map<int, Node<S>>, mem': map<int, Node<S>>, s: seq<int>)
    requires OpenOk(mem, s)
    requires forall a :: a in s ==> a in mem' && mem'[a] == mem[a]
    ensures OpenOk(mem', s)
  {
    forall i | 0 <= i < |s| ensures s[i] in mem' && mem'[s[i]] == mem[s[i]] {
      var a := s[i];
      assert a in s;
    }
    assert Keys(mem', s) == Keys(mem, s);
  }

  lemma HeldElements<S>(mem: map<int, Node<S>>, s: seq<int>)
    requires Elements(s) <= mem.Keys
    ensures Held(mem, s)
  {
    forall i | 0 <= i < |s| ensures s[i] in mem {
      AtElement(s, i);
    }
  }

  /** The nodes of `s` that no `next` pointer leaves. */
  ghost function Unlinked<S>(mem: map<int, Node<S>>, s: set<int>): set<int>
  {
    set a | a in s && a in mem && mem[a].next == NULL
  }

  /** The nodes a destruction pass over `nodes` removes. */
  ghost function Doomed<S>(mem: map<int, Node<S>>, nodes: seq<int>, unlinkedOnly: bool): set<int>
  {
    if unlinkedOnly then Unlinked(mem, Elements(nodes)) else Elements(nodes)
  }

  lemma DoomedAll<S>(mem: map<int, Node<S>>, nodes: seq<int>)
    ensures Doomed(mem, nodes, false) == Elements(nodes)
  {
  }

  lemma DoomedSpares<S>(mem: map<int, Node<S>>, nodes: seq<int>, unlinkedOnly: bool, others: set<int>, live: set<int>)
    requires Elements(nodes) !! others && others <= live
    ensures others <= live - Doomed(mem, nodes, unlinkedOnly)
  {
  }

  lemma DoomedNone<S>(mem: map<int, Node<S>>, nodes: seq<int>, unlinkedOnly: bool)
    requires nodes == []
    ensures Doomed(mem, nodes, unlinkedOnly) == {}
  {
  }

  lemma DoomedNext<S>(mem: map<int, Node<S>>, nodes: seq<int>, unlinkedOnly: bool, i: nat)
    requires i < |nodes| && nodes[i] in mem
    ensures Doomed(mem, nodes[..i + 1], unlinkedOnly) ==
            Doomed(mem, nodes[..i], unlinkedOnly) + (
              if unlinkedOnly && mem[nodes[i]].next != NULL then {} else {nodes[i]})
  {
    assert nodes[..i + 1] == nodes[..i] + [nodes[i]];
    assert Elements(nodes[..i + 1]) == Elements(nodes[..i]) + {nodes[i]};
  }

  lemma TwoPasses<S>(mem: map<int, Node<S>>, live: set<int>, s: set<int>, t: set<int>)
    ensures live - Unlinked(mem, s) - Unlinked(mem, t) == live - Unlinked(mem, s + t)
  {
  }

  lemma SingletonElements(a: int)
    ensures Elements([a]) == {a}
  {
    assert a in [a];
  }

  lemma SingletonOpen<S>(mem: map<int, Node<S>>, a: int)
    requires a in mem
    ensures OpenOk(mem, [a]) && Elements([a]) == {a}
  {
    assert Elements([a]) == {a};
  }

  /** Pushes node `a`, which has just been written. */
  method PushOpen<S>(ghost was: map<int, Node<S>>, mem: map<int, Node<S>>, s: seq<int>, a: int) returns (r: seq<int>)
    requires OpenOk(was, s) && a in mem && mem == was[a := mem[a]] && a !in Elements(s)
    ensures OpenOk(mem, r) && Elements(r) == Elements(s) + {a}
  {
    OpenFrame(was, mem, s);
    assert (s + [a])[..|s|] == s;
    r := PushHeap(mem, s + [a]);
    AppendElements(s, a);
    SameElements(r, s + [a]);
  }

  method PopOpen<S>(mem: map<int, Node<S>>, s: seq<int>) returns (top: int, r: seq<int>)
    requires s != [] && OpenOk(mem, s)
    ensures Least(mem, Elements(s), top)
    ensures OpenOk(mem, r) && Elements(r) == Elements(s) - {top}
  {
    top, r := PopHeap(mem, s);
    RemoveElements(s, r, top);
  }

  /** After any change to the scores of open nodes the heap is rebuilt over the same nodes. */
  method RebuildOpen<S>(ghost was: map<int, Node<S>>, mem: map<int, Node<S>>, s: seq<int>) returns (r: seq<int>)
    requires OpenOk(was, s) && was.Keys <= mem.Keys
    ensures OpenOk(mem, r) && Elements(r) == Elements(s)
  {
    r := MakeHeap(mem, s);
    SameElements(r, s);
  }

  /** Linear search of a vector for a node with the given state. */
  method FindState<S(==)>(mem: map<int, Node<S>>, s: seq<int>, state: S) returns (a: int)
    requires Held(mem, s) && NULL !in s
    ensures a != NULL ==> a in s && mem[a].state == state
    ensures a == NULL ==> forall b :: b in s ==> mem[b].state != state
  {
    for i := 0 to |s|
      invariant forall j :: 0 <= j < i ==> mem[s[j]].state != state
    {
      if mem[s[i]].state == state {
        return s[i];
      }
    }
    return NULL;
  }

  /** Lookup in the closed set, which compares hashes only. */
  method FindHash<S>(mem: map<int, Node<S>>, s: seq<int>, hash: S -> nat, state: S) returns (i: int)
    requires Held(mem, s)
    ensures -1 <= i < |s|
    ensures i >= 0 ==> hash(mem[s[i]].state) == hash(state)
    ensures i < 0 ==> forall b :: b in s ==> hash(mem[b].state) != hash(state)
  {
    for k := 0 to |s|
      invariant forall j :: 0 <= j < k ==> hash(mem[s[j]].state) != hash(state)
    {
      if hash(mem[s[k]].state) == hash(state) {
        return k;
      }
    }
    return -1;
  }
}
