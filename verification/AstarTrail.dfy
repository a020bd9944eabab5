/** Reconstruction of the solution: parent pointers are followed from the goal back to the start. */
module AstarTrail {
  import opened SearchGraph
  import opened Nodes
  import opened OpenHeap
  import opened NodePools
  import opened NodeVectors
  import opened AstarInvariant

  ghost function States<S>(mem: map<int, Node<S>>, trail: seq<int>): seq<S>
    requires Held(mem, trail)
  {
    seq(|trail|, i requires 0 <= i < |trail| => mem[trail[i]].state)
  }

  /** The discovered node the walk has come to. The separate goal node stands for `n`, the node that was
      discovered for the goal state. */
  ghost function Cursor(n: int, trail: seq<int>): int
  {
    if |trail| <= 1 then n else trail[0]
  }

  ghost predicate TrailNodes<S>(v: View<S>, n: int, trail: seq<int>)
  {
    && Layout(v, {}) && n in v.open && |trail| >= 1 && trail[|trail| - 1] == v.goal
    && (forall i :: 0 <= i < |trail| - 1 ==> trail[i] in Known(v, {}))
    && Held(v.mem, trail) && Cursor(n, trail) in Known(v, {})
  }

  /** Each node of the trail lies strictly below the ones after it, and all lie below `n`. */
  ghost predicate TrailFalls<S>(v: View<S>, n: int, trail: seq<int>)
    requires TrailNodes(v, n, trail)
  {
    && (forall i :: 0 <= i < |trail| - 1 ==> Below(v, trail[i], n))
    && (forall i, j :: 0 <= i < j < |trail| - 1 ==> Below(v, trail[i], trail[j]))
  }

  /** The trail is a real path to the goal whose cost, with the g-score at its front, is covered by the
      g-score of the goal. */
  ghost predicate TrailPays<S(!new)>(p: Problem<S>, v: View<S>, n: int, trail: seq<int>)
    requires TrailNodes(v, n, trail)
  {
    && v.mem[n].state == p.goal == v.mem[v.goal].state
    && IsPath(p, States(v.mem, trail))
    && PathCost(p, States(v.mem, trail)) + v.mem[Cursor(n, trail)].g <= v.mem[n].g
  }

  ghost predicate TrailOk<S(!new)>(p: Problem<S>, v: View<S>, n: int, trail: seq<int>)
  {
    TrailNodes(v, n, trail) && TrailFalls(v, n, trail) && TrailPays(p, v, n, trail)
  }

  lemma TrailBegins<S(!new)>(p: Problem<S>, v: View<S>, n: int, universe: set<S>)
    requires Inv(p, v, {}, universe) && n in v.open && v.mem[n].state == p.goal
    ensures TrailOk(p, v, n, [v.goal])
  {
    hide Rooted, OnePerState, ClosedExpanded, Inside;
  }

  lemma TrailFront<S(!new)>(p: Problem<S>, v: View<S>, n: int, trail: seq<int>)
    requires TrailOk(p, v, n, trail)
    ensures States(v.mem, trail)[0] == v.mem[Cursor(n, trail)].state == v.mem[trail[0]].state
  {
  }

  lemma FallsStep<S>(v: View<S>, n: int, trail: seq<int>, q: int)
    requires TrailNodes(v, n, trail) && TrailFalls(v, n, trail)
    requires q in Known(v, {}) && Below(v, q, Cursor(n, trail))
    ensures TrailNodes(v, n, [q] + trail) && TrailFalls(v, n, [q] + trail)
  {
    var longer := [q] + trail;
    assert |trail| > 1 ==> Below(v, trail[0], n);
    forall j | 0 < j < |longer| - 1 ensures Below(v, q, longer[j]) {
      assert j > 1 ==> Below(v, trail[0], trail[j - 1]);
    }
    forall i, j | 0 <= i < j < |longer| - 1 ensures Below(v, longer[i], longer[j]) {
      assert i > 0 ==> Below(v, trail[i - 1], trail[j - 1]);
    }
  }

  lemma PaysStep<S(!new)>(p: Problem<S>, v: View<S>, n: int, trail: seq<int>)
    requires TrailNodes(v, n, trail) && TrailPays(p, v, n, trail)
    requires Child(p, v, {}, Cursor(n, trail))
    requires TrailNodes(v, n, [v.mem[Cursor(n, trail)].parent] + trail)
    ensures TrailPays(p, v, n, [v.mem[Cursor(n, trail)].parent] + trail)
  {
    var q := v.mem[Cursor(n, trail)].parent;
    assert States(v.mem, [q] + trail) == [v.mem[q].state] + States(v.mem, trail);
    PathCons(p, v.mem[q].state, States(v.mem, trail));
  }

  lemma TrailStep<S(!new)>(p: Problem<S>, v: View<S>, n: int, trail: seq<int>, universe: set<S>)
    requires Inv(p, v, {}, universe) && TrailOk(p, v, n, trail) && Cursor(n, trail) != v.start
    ensures var q := v.mem[Cursor(n, trail)].parent;
      q in Known(v, {}) && Below(v, q, Cursor(n, trail)) && TrailOk(p, v, n, [q] + trail)
  {
    hide TrailFalls, TrailPays, Scored, OnePerState, ClosedExpanded, Inside;
    assert Child(p, v, {}, Cursor(n, trail));
    FallsStep(v, n, trail, v.mem[Cursor(n, trail)].parent);
    PaysStep(p, v, n, trail);
  }

  /** The walk never meets a node twice, nor the node it stands for. */
  lemma TrailDistinct<S(!new)>(p: Problem<S>, v: View<S>, n: int, trail: seq<int>)
    requires TrailOk(p, v, n, trail)
    ensures n !in trail && forall i, j :: 0 <= i < j < |trail| ==> trail[i] != trail[j]
  {
    forall i, j | 0 <= i < j < |trail| ensures trail[i] != trail[j] {
      if j < |trail| - 1 {
        assert Below(v, trail[i], trail[j]);
      }
    }
    assert forall i :: 0 <= i < |trail| - 1 ==> Below(v, trail[i], n);
  }

  /** A trail that has come to the start is a cheapest path: its cost is exactly the goal's g-score, although
      g-scores along it may have been stale. */
  lemma TrailIsSolution<S(!new)>(p: Problem<S>, v: View<S>, n: int, trail: seq<int>, universe: set<S>)
    requires WellPosed(p) && Inv(p, v, {}, universe) && TrailOk(p, v, n, trail)
    requires v.mem[trail[0]].state == p.start
    requires Least(v.mem, v.open, n)
    ensures Cursor(n, trail) == v.start
    ensures PathBetween(p, States(v.mem, trail), p.start, p.goal)
    ensures PathCost(p, States(v.mem, trail)) == v.mem[n].g
    ensures forall xs :: PathBetween(p, xs, p.start, p.goal) ==> v.mem[n].g <= PathCost(p, xs)
  {
    TrailFront(p, v, n, trail);
    GoalIsCheapest(p, v, n, universe);
    hide ClosedExpanded, Inside, TrailOk;
    assert PathBetween(p, States(v.mem, trail), p.start, p.goal) by { TrailEnds(p, v, n, trail); }
    TrailCost(p, v, n, trail);
  }

  lemma TrailEnds<S(!new)>(p: Problem<S>, v: View<S>, n: int, trail: seq<int>)
    requires TrailOk(p, v, n, trail)
    ensures PathBetween(p, States(v.mem, trail), v.mem[trail[0]].state, p.goal)
  {
  }

  lemma TrailCost<S(!new)>(p: Problem<S>, v: View<S>, n: int, trail: seq<int>)
    requires TrailOk(p, v, n, trail)
    ensures Cursor(n, trail) in Known(v, {})
    ensures PathCost(p, States(v.mem, trail)) + v.mem[Cursor(n, trail)].g <= v.mem[n].g
  {
  }

  /** The `next` pointers written so far thread `trail`, and nothing else has changed. */
  ghost predicate Linked<S>(mem: map<int, Node<S>>, base: map<int, Node<S>>, trail: seq<int>)
  {
    && mem.Keys == base.Keys && |trail| >= 1 && Held(base, trail)
    && (forall a :: a in base ==> mem[a] == base[a].(next := mem[a].next))
    && (forall a :: a in base && a !in trail[..|trail| - 1] ==> mem[a].next == base[a].next)
    && (forall i :: 0 <= i < |trail| - 1 ==> mem[trail[i]].next == trail[i + 1])
  }

  /** `walk` lists the nodes `next` pointers lead through from its front, each once. */
  ghost predicate Threads<S>(mem: map<int, Node<S>>, walk: seq<int>)
  {
    && |walk| >= 1 && Held(mem, walk) && NULL !in walk
    && (forall i, j :: 0 <= i < j < |walk| ==> walk[i] != walk[j])
    && (forall i :: 0 <= i < |walk| - 1 ==> mem[walk[i]].next == walk[i + 1])
    && mem[walk[|walk| - 1]].next == NULL
  }

  /** What is left of the walk after its first `i` nodes. */
  lemma WalkRest<S>(mem: map<int, Node<S>>, walk: seq<int>, i: nat)
    requires Threads(mem, walk) && i < |walk|
    ensures Elements(walk[i..]) == {walk[i]} + Elements(walk[i + 1..]) && walk[i] !in Elements(walk[i + 1..])
    ensures mem[walk[i]].next == Entry(walk, i + 1)
  {
    assert walk[i..] == [walk[i]] + walk[i + 1..];
  }

  lemma LinkBegins<S>(mem: map<int, Node<S>>, goal: int)
    requires goal in mem
    ensures Linked(mem, mem, [goal])
  {
  }

  lemma LinkedKeys<S>(mem: map<int, Node<S>>, base: map<int, Node<S>>, trail: seq<int>)
    requires Linked(mem, base, trail)
    ensures mem.Keys == base.Keys
  {
  }

  /** Linking changes no score. */
  lemma GoalScore<S>(mem: map<int, Node<S>>, base: map<int, Node<S>>, trail: seq<int>, goal: int)
    requires Linked(mem, base, trail) && goal in base
    ensures goal in mem && mem[goal].g == base[goal].g
  {
  }

  lemma LinkStep<S>(mem: map<int, Node<S>>, base: map<int, Node<S>>, trail: seq<int>, q: int)
    requires Linked(mem, base, trail) && q in base && q !in trail
    ensures Linked(mem[q := mem[q].(next := trail[0])], base, [q] + trail)
  {
    var longer := [q] + trail;
    assert longer[..|longer| - 1] == [q] + trail[..|trail| - 1];
    forall a | a in base && a !in longer[..|longer| - 1]
      ensures mem[q := mem[q].(next := trail[0])][a].next == base[a].next
    {
      assert a != q && a !in trail[..|trail| - 1];
    }
  }

  /** The node memory once the separate goal node has taken over from `n`. */
  ghost function TakenOver<S>(v: View<S>, n: int): map<int, Node<S>>
    requires n in v.mem && v.goal in v.mem
  {
    v.mem[v.goal := v.mem[v.goal].(parent := v.mem[n].parent, g := v.mem[n].g)]
  }

  /** One turn of the reconstruction loop. */
  lemma ReconstructStep<S(!new)>(p: Problem<S>, v: View<S>, n: int, mem: map<int, Node<S>>, trail: seq<int>,
      universe: set<S>)
    requires Inv(p, v, {}, universe) && TrailOk(p, v, n, trail) && n in v.mem && v.goal in v.mem
    requires Linked(mem, TakenOver(v, n), trail) && Cursor(n, trail) != v.start
    ensures Layout(v, {}) && Cursor(n, trail) in Known(v, {})
    ensures var q := v.mem[Cursor(n, trail)].parent;
      && q in mem && q in Known(v, {}) && Below(v, q, Cursor(n, trail)) && TrailOk(p, v, n, [q] + trail)
      && Linked(mem[q := mem[q].(next := trail[0])], TakenOver(v, n), [q] + trail)
      && mem[q].parent == v.mem[q].parent
  {
    var q := v.mem[Cursor(n, trail)].parent;
    TrailStep(p, v, n, trail, universe);
    TrailDistinct(p, v, n, [q] + trail);
    hide TrailFalls, TrailPays, Scored, OnePerState, Rooted, ClosedExpanded, Inside;
    assert q !in trail by {
      assert forall i :: 0 <= i < |trail| ==> ([q] + trail)[i + 1] == trail[i];
    }
    LinkStep(mem, TakenOver(v, n), trail, q);
  }

  /** The walk is over exactly when its front has the start state. */
  lemma AtStart<S(!new)>(p: Problem<S>, v: View<S>, n: int, mem: map<int, Node<S>>, trail: seq<int>, universe: set<S>)
    requires Inv(p, v, {}, universe) && TrailOk(p, v, n, trail) && n in v.mem && v.goal in v.mem
    requires Linked(mem, TakenOver(v, n), trail)
    ensures trail[0] in mem && v.start in mem && trail[0] in v.mem
    ensures Layout(v, {}) && Cursor(n, trail) in Known(v, {}) && v.mem[Cursor(n, trail)].g >= 0
    ensures mem[trail[0]].state == v.mem[trail[0]].state && mem[v.start].state == p.start
    ensures mem[trail[0]].state == mem[v.start].state <==> Cursor(n, trail) == v.start
  {
    TrailFront(p, v, n, trail);
    hide TrailFalls, TrailPays, ClosedExpanded, Inside;
    assert v.start in Known(v, {});
  }

  /** Linking changes no state. */
  lemma SameStates<S>(v: View<S>, n: int, mem: map<int, Node<S>>, trail: seq<int>)
    requires n in v.mem && v.goal in v.mem && Held(v.mem, trail) && Linked(mem, TakenOver(v, n), trail)
    ensures Held(mem, trail) && States(mem, trail) == States(v.mem, trail)
  {
    forall i | 0 <= i < |trail| ensures mem[trail[i]].state == v.mem[trail[i]].state {
      var a := trail[i];
      assert a in TakenOver(v, n) && mem[a] == TakenOver(v, n)[a].(next := mem[a].next);
    }
  }

  /** Before reconstruction no discovered node has a `next` pointer. */
  lemma NoNextYet<S(!new)>(p: Problem<S>, v: View<S>, universe: set<S>, a: int)
    requires Inv(p, v, {}, universe) && a in Known(v, {})
    ensures a in v.mem && a != v.goal && v.mem[a].next == NULL
    ensures v.goal != NULL && NULL !in Known(v, {})
  {
    hide ClosedExpanded, Inside, Rooted, OnePerState;
  }

  /** A node has a `next` pointer exactly when the trail goes on from it. */
  lemma LinkedOrNot<S(!new)>(p: Problem<S>, v: View<S>, n: int, mem: map<int, Node<S>>, trail: seq<int>,
      universe: set<S>, a: int)
    requires Inv(p, v, {}, universe) && TrailOk(p, v, n, trail) && n in v.mem && v.goal in v.mem
    requires Linked(mem, TakenOver(v, n), trail)
    requires a in Known(v, {})
    ensures a in mem && (mem[a].next == NULL <==> a !in trail)
  {
    hide TrailFalls, TrailPays, Inv, Layout, Known;
    NoNextYet(p, v, universe, a);
    var k := |trail| - 1;
    assert trail == trail[..k] + [v.goal];
    if a in trail {
      var i :| 0 <= i < k && trail[i] == a;
      assert mem[a].next == trail[i + 1];
    }
  }

  lemma GoalUnlinked<S(!new)>(p: Problem<S>, v: View<S>, n: int, mem: map<int, Node<S>>, trail: seq<int>,
      universe: set<S>)
    requires Inv(p, v, {}, universe) && TrailOk(p, v, n, trail) && n in v.mem && v.goal in v.mem
    requires Linked(mem, TakenOver(v, n), trail)
    ensures v.goal in mem && mem[v.goal].next == NULL
  {
    hide TrailFalls, TrailPays, ClosedExpanded, Inside, Rooted, OnePerState;
  }

  /** The nodes left when the popped node and all unlinked nodes are destroyed are those of the trail. */
  lemma TrailRemains<S(!new)>(p: Problem<S>, v: View<S>, n: int, mem: map<int, Node<S>>, trail: seq<int>,
      universe: set<S>)
    requires Inv(p, v, {}, universe) && TrailOk(p, v, n, trail) && n in v.mem && v.goal in v.mem
    requires Linked(mem, TakenOver(v, n), trail) && Known(v, {}) <= mem.Keys
    ensures Known(v, {}) - {n} + {v.goal} - Unlinked(mem, Known(v, {}) - {n}) == Elements(trail)
  {
    forall a | a in Known(v, {}) ensures mem[a].next == NULL <==> a !in trail {
      LinkedOrNot(p, v, n, mem, trail, universe, a);
    }
    TrailDistinct(p, v, n, trail);
    hide TrailFalls, TrailPays, Inv, Linked;
    assert forall i :: 0 <= i < |trail| - 1 ==> trail[i] in Known(v, {});
    assert v.goal in trail;
  }

  /** The list of nodes a walk along `next` pointers from the start node visits. If the start state is the
      goal state that is the destroyed start node alone, since the trail is the goal node alone. */
  ghost function Walk<S(!new)>(p: Problem<S>, v: View<S>, trail: seq<int>): seq<int>
  {
    if p.start == p.goal then [v.start] else trail
  }

  lemma WalkThreads<S(!new)>(p: Problem<S>, v: View<S>, n: int, mem: map<int, Node<S>>, trail: seq<int>,
      universe: set<S>)
    requires WellPosed(p) && Inv(p, v, {}, universe) && TrailOk(p, v, n, trail) && n in v.mem && v.goal in v.mem
    requires Linked(mem, TakenOver(v, n), trail) && trail[0] in v.mem && v.mem[trail[0]].state == p.start
    ensures p.start == p.goal <==> trail == [v.goal]
    ensures Threads(mem, Walk(p, v, trail)) && Walk(p, v, trail)[0] == v.start
    ensures p.start != p.goal ==> trail[|trail| - 1] == v.goal
  {
    AtStart(p, v, n, mem, trail, universe);
    TrailDistinct(p, v, n, trail);
    GoalUnlinked(p, v, n, mem, trail, universe);
    LinkedOrNot(p, v, n, mem, trail, universe, Cursor(n, trail));
    if |trail| > 1 {
      TrailEndsAtGoal(p, v, n, trail, universe);
    }
    hide Inv, TrailFalls, TrailPays;
  }

  /** Only the last node of the trail has the goal state. */
  lemma TrailEndsAtGoal<S(!new)>(p: Problem<S>, v: View<S>, n: int, trail: seq<int>, universe: set<S>)
    requires Inv(p, v, {}, universe) && TrailOk(p, v, n, trail) && |trail| > 1
    ensures trail[0] in v.mem && v.mem[trail[0]].state != p.goal
  {
    hide Scored, Rooted, ClosedExpanded, Inside;
    assert Below(v, trail[0], n) && trail[0] in Known(v, {}) && n in Known(v, {});
  }

  lemma WalkSolves<S(!new)>(p: Problem<S>, v: View<S>, n: int, mem: map<int, Node<S>>, trail: seq<int>,
      universe: set<S>)
    requires WellPosed(p) && Inv(p, v, {}, universe) && TrailOk(p, v, n, trail) && n in v.mem && v.goal in v.mem
    requires Linked(mem, TakenOver(v, n), trail) && trail[0] in v.mem && v.mem[trail[0]].state == p.start
    requires Least(v.mem, v.open, n)
    ensures var walk := Walk(p, v, trail);
      && Held(mem, walk) && PathBetween(p, States(mem, walk), p.start, p.goal)
      && PathCost(p, States(mem, walk)) == v.mem[n].g
    ensures forall xs :: PathBetween(p, xs, p.start, p.goal) ==> v.mem[n].g <= PathCost(p, xs)
  {
    WalkThreads(p, v, n, mem, trail, universe);
    TrailIsSolution(p, v, n, trail, universe);
    AtStart(p, v, n, mem, trail, universe);
    hide Inv, WellPosed;
    SameStates(v, n, mem, trail);
    if p.start == p.goal {
      assert States(mem, [v.start]) == [p.start];
      assert States(v.mem, trail) == [p.goal];
    }
  }
}
