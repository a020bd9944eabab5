/** What every step of the A* search keeps, over a value that mirrors the search's memory. */
module AstarInvariant {
  import opened Basics
  import opened SearchGraph
  import opened Nodes

  /** The node memory, the two sets of nodes and the two distinguished nodes. `depth` orders nodes that
      zero-cost edges leave at equal g-score. */
  datatype View<S> = View(mem: map<int, Node<S>>, depth: map<int, nat>,
                          open: set<int>, closed: set<int>, start: int, goal: int)

  /** Every discovered node; `cur` holds the node being expanded, if any. */
  ghost function Known<S>(v: View<S>, cur: set<int>): set<int>
  {
    v.open + v.closed + cur
  }

  function Estimate<S(!new)>(p: Problem<S>, s: S): int
  {
    p.heuristic(s, p.goal)
  }

  /** Ownership: a discovered node is in exactly one place, and the separate goal node in none. */
  ghost predicate Layout<S>(v: View<S>, cur: set<int>)
  {
    && v.open !! v.closed && v.open !! cur && v.closed !! cur
    && Known(v, cur) <= v.mem.Keys && Known(v, cur) <= v.depth.Keys
    && v.start in Known(v, cur) && v.goal !in Known(v, cur) && v.goal in v.mem
    && NULL !in Known(v, cur) && v.goal != NULL
  }

  ghost predicate Scored<S(!new)>(p: Problem<S>, v: View<S>, cur: set<int>)
    requires Layout(v, cur)
  {
    && (forall a :: a in Known(v, cur) ==>
          v.mem[a].h == Estimate(p, v.mem[a].state) && v.mem[a].f == v.mem[a].g + v.mem[a].h
          && v.mem[a].g >= 0 && v.mem[a].next == NULL)
    && v.mem[v.goal].state == p.goal && v.mem[v.goal].next == NULL
  }

  /** At most one node per state. */
  ghost predicate OnePerState<S>(v: View<S>, cur: set<int>)
    requires Layout(v, cur)
  {
    forall a, b :: a in Known(v, cur) && b in Known(v, cur) && v.mem[a].state == v.mem[b].state ==> a == b
  }

  /** Parent chains go strictly down in (g-score, depth), even across zero-cost edges. */
  ghost predicate Below<S>(v: View<S>, a: int, b: int)
    requires a in v.mem && a in v.depth && b in v.mem && b in v.depth
  {
    v.mem[a].g < v.mem[b].g || (v.mem[a].g == v.mem[b].g && v.depth[a] < v.depth[b])
  }

  /** A node's g-score pays for its parent and the edge between; the parent may have improved since. */
  ghost predicate Child<S(!new)>(p: Problem<S>, v: View<S>, cur: set<int>, a: int)
    requires Layout(v, cur) && a in Known(v, cur)
  {
    var q := v.mem[a].parent;
    && q in Known(v, cur)
    && Edge(p, v.mem[q].state, v.mem[a].state)
    && v.mem[q].g + p.cost(v.mem[q].state, v.mem[a].state) <= v.mem[a].g
    && Below(v, q, a)
  }

  ghost predicate Rooted<S(!new)>(p: Problem<S>, v: View<S>, cur: set<int>)
    requires Layout(v, cur)
  {
    && v.mem[v.start].state == p.start && v.mem[v.start].g == 0 && v.mem[v.start].parent == NULL
    && forall a :: a in Known(v, cur) && a != v.start ==> Child(p, v, cur, a)
  }

  /** State `s` has been reached at cost at most `bound`. */
  ghost predicate Reached<S>(v: View<S>, cur: set<int>, s: S, bound: int)
    requires Layout(v, cur)
  {
    exists a :: a in Known(v, cur) && v.mem[a].state == s && v.mem[a].g <= bound
  }

  ghost predicate Expanded<S(!new)>(p: Problem<S>, v: View<S>, cur: set<int>, a: int)
    requires Layout(v, cur) && a in Known(v, cur)
  {
    && v.mem[a].state != p.goal
    && forall s :: Edge(p, v.mem[a].state, s) ==>
         Reached(v, cur, s, v.mem[a].g + p.cost(v.mem[a].state, s))
  }

  /** Closed nodes have relaxed every outgoing edge at their present g-score. */
  ghost predicate ClosedExpanded<S(!new)>(p: Problem<S>, v: View<S>, cur: set<int>)
    requires Layout(v, cur)
  {
    forall a :: a in v.closed ==> Expanded(p, v, cur, a)
  }

  ghost predicate Inside<S>(v: View<S>, cur: set<int>, universe: set<S>)
    requires Layout(v, cur)
  {
    forall a :: a in Known(v, cur) ==> v.mem[a].state in universe
  }

  ghost predicate Inv<S(!new)>(p: Problem<S>, v: View<S>, cur: set<int>, universe: set<S>)
  {
    && Layout(v, cur) && Scored(p, v, cur) && OnePerState(v, cur) && Rooted(p, v, cur)
    && ClosedExpanded(p, v, cur) && Inside(v, cur, universe)
  }

  lemma Placed<S(!new)>(p: Problem<S>, v: View<S>, cur: set<int>, universe: set<S>, a: int)
    requires Inv(p, v, cur, universe) && a in Known(v, cur)
    ensures Layout(v, cur) && a in v.mem && a in v.depth && a != v.goal
    ensures a in v.open ==> a !in v.closed && a !in cur
    ensures a in v.closed ==> a !in v.open && a !in cur
    ensures a in cur ==> a !in v.open && a !in v.closed
  {
    hide Scored, OnePerState, Rooted, ClosedExpanded, Inside;
  }

  lemma InvLayout<S(!new)>(p: Problem<S>, v: View<S>, cur: set<int>, universe: set<S>)
    requires Inv(p, v, cur, universe)
    ensures Layout(v, cur)
  {
    hide Scored, OnePerState, Rooted, ClosedExpanded, Inside;
  }

  lemma CurrentPlaced<S(!new)>(p: Problem<S>, v: View<S>, c: int, universe: set<S>)
    requires Inv(p, v, {c}, universe)
    ensures c in Known(v, {c}) && v.start in Known(v, {c}) && v.open <= Known(v, {c}) && v.closed <= Known(v, {c})
    ensures Known(v, {c}) <= v.mem.Keys && Known(v, {c}) <= v.depth.Keys
    ensures v.goal !in Known(v, {c}) && v.goal in v.mem && c !in v.open && c !in v.closed
  {
    hide Scored, OnePerState, Rooted, ClosedExpanded, Inside;
  }

  // ---- The initial state, popping and closing ----

  ghost predicate Initial<S(!new)>(p: Problem<S>, v: View<S>)
  {
    && v.start != v.goal && v.start != NULL && v.goal != NULL && v.start in v.mem && v.goal in v.mem
    && v.start in v.depth
    && v.open == {v.start} && v.closed == {}
    && v.mem[v.start] == Node(p.start, 0, Estimate(p, p.start), Estimate(p, p.start), NULL, NULL)
    && v.mem[v.goal].state == p.goal && v.mem[v.goal].next == NULL
  }

  lemma InitialInv<S(!new)>(p: Problem<S>, v: View<S>, universe: set<S>)
    requires Initial(p, v) && Covers(p, universe)
    ensures Inv(p, v, {}, universe)
  {
  }

  /** Taking a node off the open set to expand it moves it without changing what is known. */
  lemma PopKeeps<S(!new)>(p: Problem<S>, v: View<S>, a: int, universe: set<S>)
    requires Inv(p, v, {}, universe) && a in v.open
    ensures Inv(p, v.(open := v.open - {a}), {a}, universe)
  {
    var w := v.(open := v.open - {a});
    SameKnown(p, v, {}, w, {a}, universe);
    forall b | b in w.closed ensures Expanded(p, w, {a}, b) {
      ExpandedGrows(p, v, {}, w, {a}, b);
    }
  }

  lemma SameKnown<S(!new)>(p: Problem<S>, v: View<S>, cur: set<int>, w: View<S>, cur': set<int>, universe: set<S>)
    requires Inv(p, v, cur, universe)
    requires w.mem == v.mem && w.depth == v.depth && w.start == v.start && w.goal == v.goal
    requires Known(w, cur') == Known(v, cur)
    requires w.open !! w.closed && w.open !! cur' && w.closed !! cur'
    ensures Layout(w, cur') && Scored(p, w, cur') && OnePerState(w, cur') && Rooted(p, w, cur')
      && Inside(w, cur', universe)
  {
    hide ClosedExpanded;
    forall a | a in Known(w, cur') && a != w.start ensures Child(p, w, cur', a) {
      assert Child(p, v, cur, a);
    }
  }

  /** Nothing known is lost and no g-score rises. */
  ghost predicate Grows<S>(v: View<S>, cur: set<int>, w: View<S>, cur': set<int>)
    requires Layout(v, cur) && Layout(w, cur')
  {
    && Known(v, cur) <= Known(w, cur')
    && forall a :: a in Known(v, cur) ==> w.mem[a].state == v.mem[a].state && w.mem[a].g <= v.mem[a].g
  }

  lemma ReachedGrows<S>(v: View<S>, cur: set<int>, w: View<S>, cur': set<int>, s: S, bound: int)
    requires Layout(v, cur) && Layout(w, cur') && Grows(v, cur, w, cur')
    requires Reached(v, cur, s, bound)
    ensures Reached(w, cur', s, bound)
  {
    var a :| a in Known(v, cur) && v.mem[a].state == s && v.mem[a].g <= bound;
    assert a in Known(w, cur');
  }

  lemma ExpandedGrows<S(!new)>(p: Problem<S>, v: View<S>, cur: set<int>, w: View<S>, cur': set<int>, a: int)
    requires Layout(v, cur) && Layout(w, cur') && Grows(v, cur, w, cur')
    requires a in Known(v, cur) && Expanded(p, v, cur, a) && w.mem[a].g == v.mem[a].g
    ensures Expanded(p, w, cur', a)
  {
    forall s | Edge(p, w.mem[a].state, s)
      ensures Reached(w, cur', s, w.mem[a].g + p.cost(w.mem[a].state, s))
    {
      ReachedGrows(v, cur, w, cur', s, v.mem[a].g + p.cost(v.mem[a].state, s));
    }
  }

  /** The successors that were generated for `a`, which may leave out its parent. */
  function Generated<S(!new)>(p: Problem<S>, mem: map<int, Node<S>>, a: int): seq<S>
    requires a in mem && (mem[a].parent != NULL ==> mem[a].parent in mem)
  {
    p.successors(mem[a].state, if mem[a].parent == NULL then None else Some(mem[mem[a].parent].state))
  }

  /** A node without a parent asks for all successors; any other one names its parent's state, so a generator that
      leaves the named parent out never goes back to it. */
  lemma GeneratedFor<S(!new)>(p: Problem<S>, mem: map<int, Node<S>>, a: int)
    requires a in mem && (mem[a].parent != NULL ==> mem[a].parent in mem)
    ensures mem[a].parent == NULL ==> forall s :: s in Generated(p, mem, a) <==> Edge(p, mem[a].state, s)
    ensures mem[a].parent != NULL && (forall u, q :: q !in p.successors(u, Some(q))) ==>
      mem[mem[a].parent].state !in Generated(p, mem, a)
  {
  }

  /** Once every generated successor is reached, so is every successor: the parent that may be missing
      from the list already costs no more. */
  lemma FullyExpanded<S(!new)>(p: Problem<S>, v: View<S>, a: int, universe: set<S>)
    requires WellPosed(p) && Inv(p, v, {a}, universe) && v.mem[a].state != p.goal
    requires v.mem[a].parent != NULL ==> v.mem[a].parent in v.mem
    requires a == v.start || v.mem[a].parent != NULL
    requires forall s :: s in Generated(p, v.mem, a) ==> Reached(v, {a}, s, v.mem[a].g + p.cost(v.mem[a].state, s))
    ensures Expanded(p, v, {a}, a)
  {
    forall s | Edge(p, v.mem[a].state, s)
      ensures Reached(v, {a}, s, v.mem[a].g + p.cost(v.mem[a].state, s))
    {
      var q := v.mem[a].parent;
      if a != v.start {
        assert Child(p, v, {a}, a);
        if s == v.mem[q].state {
          assert q in Known(v, {a});
        }
      }
    }
  }

  lemma CloseKeeps<S(!new)>(p: Problem<S>, v: View<S>, a: int, universe: set<S>)
    requires Inv(p, v, {a}, universe) && Expanded(p, v, {a}, a)
    ensures Inv(p, v.(closed := v.closed + {a}), {}, universe)
  {
    var w := v.(closed := v.closed + {a});
    SameKnown(p, v, {a}, w, {}, universe);
    forall b | b in w.closed ensures Expanded(p, w, {}, b) {
      ExpandedGrows(p, v, {a}, w, {}, b);
    }
  }

  // ---- Relaxing an edge ----

  /** The effect of finding a cheaper way to a node already discovered: it is re-parented and is open. */
  ghost function Relax<S(!new)>(p: Problem<S>, v: View<S>, c: int, a: int, g: int): View<S>
    requires a in v.mem && c in v.depth
  {
    v.(mem := v.mem[a := v.mem[a].Update(c, g, Estimate(p, v.mem[a].state))],
       depth := v.depth[a := v.depth[c] + 1],
       open := v.open + {a}, closed := v.closed - {a})
  }

  /** An edge from `c`, the node being expanded, that improves on what node `a` costs now. */
  ghost predicate Improves<S(!new)>(p: Problem<S>, v: View<S>, c: int, a: int, g: int)
    requires Layout(v, {c})
  {
    && a in Known(v, {c}) && a != c && Edge(p, v.mem[c].state, v.mem[a].state)
    && g == v.mem[c].g + p.cost(v.mem[c].state, v.mem[a].state) && g < v.mem[a].g
  }

  lemma RelaxShape<S(!new)>(p: Problem<S>, v: View<S>, c: int, a: int, g: int, universe: set<S>)
    requires Inv(p, v, {c}, universe) && Improves(p, v, c, a, g)
    ensures var w := Relax(p, v, c, a, g);
      && Layout(w, {c}) && Known(w, {c}) == Known(v, {c}) && Grows(v, {c}, w, {c})
      && Scored(p, w, {c}) && OnePerState(w, {c}) && Inside(w, {c}, universe)
      && w.mem[c] == v.mem[c]
  {
    hide ClosedExpanded, Rooted;
    assert Scored(p, v, {c}) && c in Known(v, {c});
  }

  lemma RelaxRooted<S(!new)>(p: Problem<S>, v: View<S>, c: int, a: int, g: int, universe: set<S>)
    requires Inv(p, v, {c}, universe) && Improves(p, v, c, a, g)
    ensures Layout(Relax(p, v, c, a, g), {c}) && Rooted(p, Relax(p, v, c, a, g), {c})
  {
    hide ClosedExpanded;
    RelaxShape(p, v, c, a, g, universe);
    var w := Relax(p, v, c, a, g);
    assert a != v.start;
    forall b | b in Known(w, {c}) && b != w.start ensures Child(p, w, {c}, b) {
      if b != a {
        assert Child(p, v, {c}, b);
      }
    }
  }

  /** Re-opening keeps the invariant, although the children of `a` are left with stale g-scores. */
  lemma RelaxKeeps<S(!new)>(p: Problem<S>, v: View<S>, c: int, a: int, g: int, universe: set<S>)
    requires Inv(p, v, {c}, universe) && Improves(p, v, c, a, g)
    ensures var w := Relax(p, v, c, a, g);
      && Inv(p, w, {c}, universe) && Known(w, {c}) == Known(v, {c}) && Grows(v, {c}, w, {c})
      && w.mem[c] == v.mem[c] && Reached(w, {c}, v.mem[a].state, g)
  {
    hide Scored, OnePerState, Inside, Rooted;
    RelaxShape(p, v, c, a, g, universe);
    RelaxRooted(p, v, c, a, g, universe);
    var w := Relax(p, v, c, a, g);
    forall b | b in w.closed ensures Expanded(p, w, {c}, b) {
      ExpandedGrows(p, v, {c}, w, {c}, b);
    }
    assert a in Known(w, {c});
  }

  // ---- Discovering a state ----

  ghost function Discover<S(!new)>(p: Problem<S>, v: View<S>, c: int, a: int, s: S, g: int): View<S>
    requires c in v.depth
  {
    v.(mem := v.mem[a := Node(s, g, Estimate(p, s), g + Estimate(p, s), c, NULL)],
       depth := v.depth[a := v.depth[c] + 1],
       open := v.open + {a})
  }

  ghost predicate Undiscovered<S>(v: View<S>, cur: set<int>, s: S)
    requires Layout(v, cur)
  {
    forall b :: b in Known(v, cur) ==> v.mem[b].state != s
  }

  ghost predicate Unseen<S(!new)>(p: Problem<S>, v: View<S>, c: int, a: int, s: S, g: int)
    requires Layout(v, {c})
  {
    && a !in Known(v, {c}) && a != v.goal && a != NULL && Edge(p, v.mem[c].state, s)
    && g == v.mem[c].g + p.cost(v.mem[c].state, s)
    && Undiscovered(v, {c}, s)
  }

  lemma DiscoverShape<S(!new)>(p: Problem<S>, v: View<S>, c: int, a: int, s: S, g: int, universe: set<S>)
    requires Inv(p, v, {c}, universe) && Covers(p, universe) && Unseen(p, v, c, a, s, g)
    ensures var w := Discover(p, v, c, a, s, g);
      && Layout(w, {c}) && Known(w, {c}) == Known(v, {c}) + {a} && Grows(v, {c}, w, {c})
      && Scored(p, w, {c}) && OnePerState(w, {c}) && Inside(w, {c}, universe)
      && w.mem[c] == v.mem[c]
  {
    hide ClosedExpanded, Rooted;
    var w := Discover(p, v, c, a, s, g);
    assert c in Known(v, {c});
    assert Known(w, {c}) == Known(v, {c}) + {a};
    assert forall b :: b in Known(v, {c}) ==> w.mem[b] == v.mem[b];
  }

  lemma DiscoverRooted<S(!new)>(p: Problem<S>, v: View<S>, c: int, a: int, s: S, g: int, universe: set<S>)
    requires Inv(p, v, {c}, universe) && Covers(p, universe) && Unseen(p, v, c, a, s, g)
    ensures Layout(Discover(p, v, c, a, s, g), {c}) && Rooted(p, Discover(p, v, c, a, s, g), {c})
  {
    hide ClosedExpanded;
    DiscoverShape(p, v, c, a, s, g, universe);
    var w := Discover(p, v, c, a, s, g);
    forall b | b in Known(w, {c}) && b != w.start ensures Child(p, w, {c}, b) {
      if b != a {
        assert Child(p, v, {c}, b);
      }
    }
  }

  lemma DiscoverKeeps<S(!new)>(p: Problem<S>, v: View<S>, c: int, a: int, s: S, g: int, universe: set<S>)
    requires Inv(p, v, {c}, universe) && Covers(p, universe) && Unseen(p, v, c, a, s, g)
    ensures var w := Discover(p, v, c, a, s, g);
      && Inv(p, w, {c}, universe) && Known(w, {c}) == Known(v, {c}) + {a} && Grows(v, {c}, w, {c})
      && w.mem[c] == v.mem[c] && Reached(w, {c}, s, g)
  {
    hide Scored, OnePerState, Inside, Rooted;
    DiscoverShape(p, v, c, a, s, g, universe);
    DiscoverRooted(p, v, c, a, s, g, universe);
    var w := Discover(p, v, c, a, s, g);
    forall b | b in w.closed ensures Expanded(p, w, {c}, b) {
      assert w.mem[b] == v.mem[b];
      ExpandedGrows(p, v, {c}, w, {c}, b);
    }
    assert a in Known(w, {c});
  }

  // ---- Optimality ----

  /** Along any path from a known state to the goal there is an open node whose f-score does not exceed
      what following that path from the known node would cost in all. */
  lemma {:induction false} OpenBound<S(!new)>(p: Problem<S>, v: View<S>, a: int, xs: seq<S>, universe: set<S>)
      returns (m: int)
    requires WellPosed(p) && Inv(p, v, {}, universe)
    requires a in Known(v, {}) && PathBetween(p, xs, v.mem[a].state, p.goal)
    ensures m in v.open && v.mem[m].f <= v.mem[a].g + PathCost(p, xs)
    decreases |xs|
  {
    hide Rooted, OnePerState, Inside;
    if a in v.open {
      m := a;
    } else {
      assert Expanded(p, v, {}, a);
      PathTail(p, xs);
      var b :| b in Known(v, {}) && v.mem[b].state == xs[1]
               && v.mem[b].g <= v.mem[a].g + p.cost(xs[0], xs[1]);
      m := OpenBound(p, v, b, xs[1..], universe);
    }
  }

  /** If the open set is empty, no path leads from the start to the goal. */
  lemma EmptyOpenMeansNoPath<S(!new)>(p: Problem<S>, v: View<S>, universe: set<S>)
    requires WellPosed(p) && Inv(p, v, {}, universe) && v.open == {}
    ensures forall xs :: !PathBetween(p, xs, p.start, p.goal)
  {
    forall xs | PathBetween(p, xs, p.start, p.goal) ensures false {
      var m := OpenBound(p, v, v.start, xs, universe);
    }
  }

  /** A goal node with the least f-score on the open set costs no more than any path. */
  lemma GoalIsCheapest<S(!new)>(p: Problem<S>, v: View<S>, n: int, universe: set<S>)
    requires WellPosed(p) && Inv(p, v, {}, universe)
    requires Least(v.mem, v.open, n) && v.mem[n].state == p.goal
    ensures forall xs :: PathBetween(p, xs, p.start, p.goal) ==> v.mem[n].g <= PathCost(p, xs)
  {
    hide ClosedExpanded, OnePerState, Inside;
    forall xs | PathBetween(p, xs, p.start, p.goal) ensures v.mem[n].g <= PathCost(p, xs) {
      var m := OpenBound(p, v, v.start, xs, universe);
    }
  }

  // ---- Termination ----

  ghost function Pick<T>(s: set<T>): (a: T)
    requires s != {}
    ensures a in s
  {
    var a :| a in s; a
  }

  ghost function SumG<S>(mem: map<int, Node<S>>, s: set<int>): int
    requires s <= mem.Keys
  {
    if s == {} then 0 else mem[Pick(s)].g + SumG(mem, s - {Pick(s)})
  }

  lemma {:induction false} SumGNonNegative<S>(mem: map<int, Node<S>>, s: set<int>)
    requires s <= mem.Keys && forall a :: a in s ==> mem[a].g >= 0
    ensures SumG(mem, s) >= 0
  {
    if s != {} {
      var a := Pick(s);
      assert a in s && mem[a].g >= 0;
      SumGNonNegative(mem, s - {a});
    }
  }

  /** Lowering one g-score lowers the sum by as much. */
  lemma {:induction false} SumGUpdate<S>(mem: map<int, Node<S>>, s: set<int>, a: int, n: Node<S>)
    requires s <= mem.Keys
    ensures s <= mem[a := n].Keys
    ensures a in s ==> SumG(mem[a := n], s) == SumG(mem, s) - mem[a].g + n.g
    ensures a !in s ==> SumG(mem[a := n], s) == SumG(mem, s)
  {
    if s != {} {
      SumGUpdate(mem, s - {Pick(s)}, a, n);
    }
  }

  /** A state without a node leaves a slot to spare. */
  lemma RoomForUnseen<S(!new)>(p: Problem<S>, v: View<S>, c: int, s: S, universe: set<S>)
    requires Inv(p, v, {c}, universe) && Covers(p, universe) && Edge(p, v.mem[c].state, s)
    requires Undiscovered(v, {c}, s)
    ensures |Known(v, {c}) + {v.goal}| <= |universe|
  {
    hide Scored, Rooted, ClosedExpanded;
    assert c in Known(v, {c}) && s in universe;
    NodesWithin(v.mem, Known(v, {c}), universe - {s});
  }

  /** Distinct states bound the number of nodes. */
  lemma {:induction false} NodesWithin<S>(mem: map<int, Node<S>>, s: set<int>, universe: set<S>)
    requires s <= mem.Keys
    requires forall a :: a in s ==> mem[a].state in universe
    requires forall a, b :: a in s && b in s && mem[a].state == mem[b].state ==> a == b
    ensures |s| <= |universe|
  {
    if s != {} {
      var a := Pick(s);
      NodesWithin(mem, s - {a}, universe - {mem[a].state});
    }
  }

  /** The pool needs one slot per state, and one for the separate goal node. */
  lemma KnownWithin<S(!new)>(p: Problem<S>, v: View<S>, cur: set<int>, universe: set<S>)
    requires Inv(p, v, cur, universe)
    ensures |Known(v, cur)| <= |universe| && |Known(v, cur) + {v.goal}| == |Known(v, cur)| + 1
  {
    hide Scored, Rooted, ClosedExpanded;
    NodesWithin(v.mem, Known(v, cur), universe);
  }

  /** The step made headway: a state was discovered, or a g-score fell. */
  ghost predicate Progress<S>(v: View<S>, cur: set<int>, w: View<S>, cur': set<int>)
    requires Layout(v, cur) && Layout(w, cur')
  {
    || Known(v, cur) < Known(w, cur')
    || (Known(v, cur) == Known(w, cur') && SumG(w.mem, Known(w, cur')) < SumG(v.mem, Known(v, cur)))
  }

  lemma RelaxProgress<S(!new)>(p: Problem<S>, v: View<S>, c: int, a: int, g: int)
    requires Layout(v, {c}) && Improves(p, v, c, a, g)
    ensures Layout(Relax(p, v, c, a, g), {c}) && Progress(v, {c}, Relax(p, v, c, a, g), {c})
  {
    var w := Relax(p, v, c, a, g);
    assert Known(w, {c}) == Known(v, {c});
    SumGUpdate(v.mem, Known(v, {c}), a, w.mem[a]);
  }

  lemma DiscoverProgress<S(!new)>(p: Problem<S>, v: View<S>, c: int, a: int, s: S, g: int)
    requires Layout(v, {c}) && Unseen(p, v, c, a, s, g)
    ensures Layout(Discover(p, v, c, a, s, g), {c}) && Progress(v, {c}, Discover(p, v, c, a, s, g), {c})
  {
    var w := Discover(p, v, c, a, s, g);
    assert Known(w, {c}) == Known(v, {c}) + {a};
    assert a in Known(w, {c});
  }

  /** What handling one successor `s` of the node `c` being expanded achieves. */
  ghost predicate Handled<S(!new)>(p: Problem<S>, v: View<S>, w: View<S>, c: int, s: S)
  {
    && Layout(v, {c}) && Layout(w, {c}) && Grows(v, {c}, w, {c}) && w.mem[c] == v.mem[c]
    && Reached(w, {c}, s, v.mem[c].g + p.cost(v.mem[c].state, s))
    && (w == v || Progress(v, {c}, w, {c}))
  }

  lemma NothingBetter<S(!new)>(p: Problem<S>, v: View<S>, c: int, a: int)
    requires Layout(v, {c}) && a in Known(v, {c})
    requires v.mem[a].g <= v.mem[c].g + p.cost(v.mem[c].state, v.mem[a].state)
    ensures Handled(p, v, v, c, v.mem[a].state)
  {
  }

  lemma RelaxHandles<S(!new)>(p: Problem<S>, v: View<S>, c: int, a: int, g: int, universe: set<S>)
    requires Inv(p, v, {c}, universe) && Improves(p, v, c, a, g)
    ensures Handled(p, v, Relax(p, v, c, a, g), c, v.mem[a].state)
  {
    RelaxKeeps(p, v, c, a, g, universe);
    RelaxProgress(p, v, c, a, g);
    hide Inv, Grows, Reached, Progress;
  }

  lemma DiscoverHandles<S(!new)>(p: Problem<S>, v: View<S>, c: int, a: int, s: S, g: int, universe: set<S>)
    requires Inv(p, v, {c}, universe) && Covers(p, universe) && Unseen(p, v, c, a, s, g)
    ensures Handled(p, v, Discover(p, v, c, a, s, g), c, s)
  {
    DiscoverKeeps(p, v, c, a, s, g, universe);
    DiscoverProgress(p, v, c, a, s, g);
    hide Inv, Grows, Reached, Progress;
  }

  /** What handling a list of successors in turn achieves. */
  ghost predicate Swept<S(!new)>(p: Problem<S>, v: View<S>, w: View<S>, c: int, sucs: seq<S>)
  {
    && Layout(v, {c}) && Layout(w, {c}) && Grows(v, {c}, w, {c}) && w.mem[c] == v.mem[c]
    && (forall s :: s in sucs ==> Reached(w, {c}, s, v.mem[c].g + p.cost(v.mem[c].state, s)))
    && (w == v || Progress(v, {c}, w, {c}))
  }

  lemma SweptNone<S(!new)>(p: Problem<S>, v: View<S>, c: int)
    requires Layout(v, {c})
    ensures Swept(p, v, v, c, [])
  {
  }

  lemma SweptFacts<S(!new)>(p: Problem<S>, v: View<S>, w: View<S>, c: int, sucs: seq<S>)
    requires Swept(p, v, w, c, sucs)
    ensures Layout(v, {c}) && Layout(w, {c}) && c in v.mem && c in w.mem && w.mem[c] == v.mem[c]
  {
  }

  lemma ProgressChains<S>(u: View<S>, v: View<S>, w: View<S>, cur: set<int>)
    requires Layout(u, cur) && Layout(v, cur) && Layout(w, cur)
    requires u == v || Progress(u, cur, v, cur)
    requires v == w || Progress(v, cur, w, cur)
    ensures u == w || Progress(u, cur, w, cur)
  {
    hide Layout, SumG;
  }

  lemma SweptMore<S(!new)>(p: Problem<S>, u: View<S>, v: View<S>, w: View<S>, c: int, sucs: seq<S>, s: S)
    requires Swept(p, u, v, c, sucs) && Handled(p, v, w, c, s)
    ensures Swept(p, u, w, c, sucs + [s])
  {
    ProgressChains(u, v, w, {c});
    hide Progress;
    forall t | t in sucs + [s] ensures Reached(w, {c}, t, u.mem[c].g + p.cost(u.mem[c].state, t)) {
      if t in sucs {
        ReachedGrows(v, {c}, w, {c}, t, u.mem[c].g + p.cost(u.mem[c].state, t));
      }
    }
  }

  /** After the sweep over the generated successors the node can be closed. */
  lemma SweptExpands<S(!new)>(p: Problem<S>, v: View<S>, w: View<S>, c: int, universe: set<S>)
    requires WellPosed(p) && Inv(p, v, {c}, universe) && Inv(p, w, {c}, universe)
    requires v.mem[c].state != p.goal
    requires v.mem[c].parent != NULL ==> v.mem[c].parent in v.mem
    requires Swept(p, v, w, c, Generated(p, v.mem, c)) && w.start == v.start
    ensures Inv(p, w.(closed := w.closed + {c}), {}, universe)
  {
    hide Progress, Scored, OnePerState, Inside, ClosedExpanded;
    assert c in Known(v, {c});
    if c != v.start {
      assert Child(p, v, {c}, c) && Child(p, w, {c}, c);
    }
    FullyExpanded(p, w, c, universe);
    CloseKeeps(p, w, c, universe);
  }

  lemma ParentInMemory<S(!new)>(p: Problem<S>, v: View<S>, c: int, universe: set<S>)
    requires WellPosed(p) && Inv(p, v, {c}, universe)
    ensures c in v.mem && (v.mem[c].parent != NULL ==> v.mem[c].parent in v.mem)
    ensures forall s :: s in Generated(p, v.mem, c) ==> Edge(p, v.mem[c].state, s)
  {
    hide Scored, OnePerState, Inside, ClosedExpanded;
    assert c in Known(v, {c});
    if c != v.start {
      assert Child(p, v, {c}, c);
    }
  }

  /** Neither the open nor the closed set holds a node for `s`, and neither is the node being expanded
      one, since no state is its own successor. */
  lemma NotFound<S(!new)>(p: Problem<S>, v: View<S>, c: int, s: S)
    requires WellPosed(p) && Layout(v, {c}) && Edge(p, v.mem[c].state, s)
    requires forall b :: b in v.open ==> v.mem[b].state != s
    requires forall b :: b in v.closed ==> p.hash(v.mem[b].state) != p.hash(s)
    ensures Undiscovered(v, {c}, s)
  {
  }

  /** The closed set holds no node with the hash of the node being expanded, so its insertion succeeds. */
  lemma NotClosedYet<S(!new)>(p: Problem<S>, v: View<S>, c: int, universe: set<S>, b: int)
    requires WellPosed(p) && Inv(p, v, {c}, universe) && b in v.closed
    ensures p.hash(v.mem[b].state) != p.hash(v.mem[c].state)
  {
    hide Scored, Rooted, ClosedExpanded, Inside;
    assert b in Known(v, {c}) && c in Known(v, {c}) && b != c;
  }

  /** What a search step leaves smaller, compared lexicographically. */
  ghost function Measure<S>(v: View<S>, universe: set<S>): (int, int, int)
    requires Layout(v, {})
  {
    (|universe| - |Known(v, {})|, SumG(v.mem, Known(v, {})), |v.open|)
  }

  ghost predicate LexLess(x: (int, int, int), y: (int, int, int))
  {
    x.0 < y.0 || (x.0 == y.0 && (x.1 < y.1 || (x.1 == y.1 && x.2 < y.2)))
  }

  lemma PopKnown<S>(v: View<S>, a: int)
    requires a in v.open
    ensures Known(v.(open := v.open - {a}), {a}) == Known(v, {})
  {
  }

  lemma CloseKnown<S>(w: View<S>, a: int)
    ensures Known(w.(closed := w.closed + {a}), {}) == Known(w, {a})
  {
  }

  /** Expanding the popped node lowers the measure, whatever the successors did. */
  lemma StepDescends<S>(v: View<S>, a: int, w: View<S>, universe: set<S>)
    requires Layout(v, {}) && a in v.open
    requires var u := v.(open := v.open - {a}); Layout(u, {a}) && Layout(w, {a}) && (w == u || Progress(u, {a}, w, {a}))
    requires Layout(w.(closed := w.closed + {a}), {})
    ensures LexLess(Measure(w.(closed := w.closed + {a}), universe), Measure(v, universe))
  {
    PopKnown(v, a);
    CloseKnown(w, a);
    hide Layout, Known, SumG;
    if Known(v, {}) < Known(w, {a}) {
      ProperSubsetSize(Known(v, {}), Known(w, {a}));
    }
  }

  lemma SweepDescends<S(!new)>(p: Problem<S>, v: View<S>, a: int, w: View<S>, sucs: seq<S>, universe: set<S>)
    requires Layout(v, {}) && a in v.open && Swept(p, v.(open := v.open - {a}), w, a, sucs)
    requires Layout(w.(closed := w.closed + {a}), {})
    ensures LexLess(Measure(w.(closed := w.closed + {a}), universe), Measure(v, universe))
  {
    hide Grows, Reached, Progress, LexLess, Measure;
    StepDescends(v, a, w, universe);
  }

  lemma ProperSubsetSize<T>(s: set<T>, t: set<T>)
    requires s < t
    ensures |s| < |t|
  {
    assert t == s + (t - s);
  }

  lemma MeasureBounded<S(!new)>(p: Problem<S>, v: View<S>, universe: set<S>)
    requires Inv(p, v, {}, universe)
    ensures Measure(v, universe).0 >= 0 && Measure(v, universe).1 >= 0 && Measure(v, universe).2 >= 0
  {
    KnownWithin(p, v, {}, universe);
    SumGNonNegative(v.mem, Known(v, {}));
  }
}
