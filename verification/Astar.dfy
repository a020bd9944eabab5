/** The A* search object. Nodes are addresses of the pool's block and `mem` is what the block holds, so a
    destroyed node can still be read, as it can in the block. */
module AstarSearch {
  import opened Basics
  import opened SearchGraph
  import opened Nodes
  import opened NodePools
  import opened OpenHeap
  import opened NodeVectors
  import opened AstarInvariant
  import opened AstarTrail

  datatype Status = RUNNING | SUCCESS | FAILURE

  ghost predicate NoPath<S(!new)>(p: Problem<S>)
  {
    forall xs :: !PathBetween(p, xs, p.start, p.goal)
  }

  ghost predicate Cheapest<S(!new)>(p: Problem<S>, cost: int)
  {
    forall xs :: PathBetween(p, xs, p.start, p.goal) ==> cost <= PathCost(p, xs)
  }

  lemma NoPathFold<S(!new)>(p: Problem<S>)
    requires forall xs :: !PathBetween(p, xs, p.start, p.goal)
    ensures NoPath(p)
  {
  }

  /** The search's measure has gone down. */
  ghost predicate Descended<S>(v: View<S>, w: View<S>, universe: set<S>)
  {
    Layout(v, {}) && Layout(w, {}) && LexLess(Measure(w, universe), Measure(v, universe))
  }

  lemma DescendedFold<S>(v: View<S>, w: View<S>, universe: set<S>)
    requires Layout(v, {}) && Layout(w, {}) && LexLess(Measure(w, universe), Measure(v, universe))
    ensures Descended(v, w, universe)
  {
  }

  ghost function Rank<S>(v: View<S>, universe: set<S>): (int, int, int)
  {
    if Layout(v, {}) then Measure(v, universe) else (0, 0, 0)
  }

  lemma RankDescends<S>(v: View<S>, w: View<S>, universe: set<S>)
    requires Descended(v, w, universe)
    ensures LexLess(Rank(w, universe), Rank(v, universe))
  {
  }

  lemma NoOpenNodes(s: seq<int>)
    ensures s == [] ==> Elements(s) == {}
  {
  }

  lemma GoalNodeState<S(!new)>(p: Problem<S>, v: View<S>, universe: set<S>)
    requires Inv(p, v, {}, universe)
    ensures v.goal in v.mem && v.mem[v.goal].state == p.goal
  {
    hide Rooted, OnePerState, ClosedExpanded, Inside;
  }

  lemma NoneClosed()
    ensures Elements([]) == {} && NoDup([])
  {
  }

  /** The search as constructed: the start node is open and the goal node waits beside it. */
  lemma StartView<S(!new)>(p: Problem<S>, v: View<S>)
    requires v.start != v.goal && v.start >= 0 && v.goal >= 0 && v.open == {v.start} && v.closed == {}
      && v.depth == map[v.start := 0]
    requires var h := p.heuristic(p.start, p.goal);
      v.mem == map[v.start := Node(p.start, 0, h, h, NULL, NULL), v.goal := Node(p.goal, 0, 0, 0, NULL, NULL)]
    ensures Initial(p, v) && Known(v, {}) == {v.start}
  {
  }

  /** A pool with its first two nodes allocated, the start node and the goal node. */
  method TwoNodes(maxNodes: nat) returns (block: NodePool, s: int, g: int)
    requires maxNodes >= 2
    ensures fresh(block) && fresh(block.link) && block.Valid() && block.link.Length == maxNodes
    ensures s != g && s >= 0 && g >= 0 && block.Live() == {s, g}
  {
    hide NodePool.Valid, NodePool.Live;
    block := new NodePool(maxNodes);
    block.HasRoom();
    s := block.Allocate();
    assert block.Live() == {s};
    block.HasRoom();
    g := block.Allocate();
  }

  class Astar<S(!new, ==)> {
    const p: Problem<S>
    const pool: NodePool
    const start: int
    const goal: int
    var mem: map<int, Node<S>>
    var openSet: seq<int>
    var closedSet: seq<int>
    var status: Status
    var steps: nat
    var solutionCost: int
    ghost const universe: set<S>
    ghost var depth: map<int, nat>
    ghost var cancelled: bool
    ghost var walk: seq<int>

    ghost function View(): View<S>
      reads this
    {
      AstarInvariant.View(mem, depth, Elements(openSet), Elements(closedSet), start, goal)
    }

    /** The vectors and the pool agree with the sets the invariant speaks of: exactly the discovered
        nodes and the goal node are allocated. */
    ghost predicate Stored(cur: set<int>)
      reads this, pool, pool.link
    {
      && pool.Valid() && pool.Live() == Known(View(), cur) + {goal}
      && OpenOk(mem, openSet) && NoDup(closedSet)
      && |universe| + 1 <= pool.link.Length
    }

    ghost predicate Running(cur: set<int>)
      reads this, pool, pool.link
    {
      WellPosed(p) && Covers(p, universe) && Inv(p, View(), cur, universe) && Stored(cur)
    }

    /** After success the `next` pointers thread a cheapest path from start to goal, and (unless the start
        is the goal) exactly its nodes are still allocated. */
    ghost predicate Solved()
      reads this, pool, pool.link
    {
      && pool.Valid() && Threads(mem, walk) && walk[0] == start
      && PathBetween(p, States(mem, walk), p.start, p.goal)
      && PathCost(p, States(mem, walk)) == solutionCost && Cheapest(p, solutionCost)
      && pool.Live() == (if p.start == p.goal then {goal} else Elements(walk))
      && start != goal && 0 <= start < pool.link.Length
      && (if p.start == p.goal then walk == [start] else walk[|walk| - 1] == goal)
    }

    ghost predicate Valid()
      reads this, pool, pool.link
    {
      match status
      case RUNNING => Running({})
      case SUCCESS => Solved()
      case FAILURE => pool.Valid() && pool.Live() == {} && (cancelled || NoPath(p))
    }

    constructor (problem: Problem<S>, maxNodes: nat, ghost states: set<S>)
      requires WellPosed(problem) && Covers(problem, states) && |states| + 1 <= maxNodes
      ensures Valid() && p == problem && status == RUNNING && !cancelled && universe == states
      ensures steps == 0 && openSet == [start] && closedSet == []
      ensures fresh(pool) && fresh(pool.link)
    {
      assert problem.start in states && |states| >= 1;
      hide WellPosed, Covers;
      var block, s, g := TwoNodes(maxNodes);
      var h := problem.heuristic(problem.start, problem.goal);
      p, pool, start, goal := problem, block, s, g;
      mem := map[s := Node(problem.start, 0, h, h, NULL, NULL), g := Node(problem.goal, 0, 0, 0, NULL, NULL)];
      openSet, closedSet := [s], [];
      status, steps, solutionCost := RUNNING, 0, 0;
      universe, depth, cancelled, walk := states, map[s := 0], false, [];
      new;
      hide Valid, NodePool.Valid, NodePool.Live;
      Started();
    }

    lemma Started()
      requires WellPosed(p) && Covers(p, universe) && |universe| + 1 <= pool.link.Length
      requires pool.Valid() && pool.Live() == {start, goal} && start != goal && start >= 0 && goal >= 0
      requires var h := p.heuristic(p.start, p.goal);
        mem == map[start := Node(p.start, 0, h, h, NULL, NULL), goal := Node(p.goal, 0, 0, 0, NULL, NULL)]
      requires openSet == [start] && closedSet == [] && depth == map[start := 0] && status == RUNNING
      ensures Valid()
    {
      hide Solved, NoPath, NodePool.Valid, NodePool.Live, WellPosed, Covers, OpenOk, Inv, NoDup, Elements;
      SingletonOpen(mem, start);
      NoneClosed();
      StartView(p, View());
      hide Initial, Known;
      InitialInv(p, View(), universe);
    }

    // ---- Nodes ----

    method CreateNode(n: Node<S>) returns (a: int)
      requires pool.Valid() && |pool.Live()| < pool.link.Length
      modifies pool, this`mem
      ensures pool.Valid() && pool.Live() == old(pool.Live()) + {a} && a !in old(pool.Live()) && a >= 0
      ensures mem == old(mem)[a := n]
    {
      pool.HasRoom();
      a := pool.Allocate();
      mem := mem[a := n];
    }

    /** Destroys the nodes of a vector; with `unlinkedOnly`, those that the solution path does not use. */
    method DestroyEach(nodes: seq<int>, unlinkedOnly: bool)
      requires pool.Valid() && NoDup(nodes) && Held(mem, nodes) && Elements(nodes) <= pool.Live()
      modifies pool, pool.link
      ensures pool.Valid()
      ensures pool.Live() == old(pool.Live()) - Doomed(mem, nodes, unlinkedOnly)
    {
      hide NodePool.Valid, NodePool.Live, NoDup, Doomed;
      assert Doomed(mem, nodes[..0], unlinkedOnly) == {} by { DoomedNone(mem, nodes[..0], unlinkedOnly); }
      for i := 0 to |nodes|
        invariant pool.Valid() && Elements(nodes[i..]) <= pool.Live() && NoDup(nodes[i..])
        invariant pool.Live() == old(pool.Live()) - Doomed(mem, nodes[..i], unlinkedOnly)
      {
        var a := nodes[i];
        NoDupHead(nodes[i..]);
        assert nodes[i..][1..] == nodes[i + 1..];
        DoomedNext(mem, nodes, unlinkedOnly, i);
        if !unlinkedOnly || mem[a].next == NULL {
          pool.Deallocate(a);
        }
      }
      assert nodes[..|nodes|] == nodes;
    }

    /** The vectors share no node, and they and the goal node make up all that is allocated. */
    ghost predicate Owned()
      reads this, pool, pool.link
    {
      && pool.Valid() && pool.Live() == Elements(openSet) + Elements(closedSet) + {goal}
      && Elements(openSet) !! Elements(closedSet) && goal !in Elements(openSet) && goal !in Elements(closedSet)
      && NoDup(openSet) && Held(mem, openSet) && NoDup(closedSet) && Held(mem, closedSet)
    }

    lemma RunningOwned()
      requires Running({})
      ensures Owned()
    {
      hide WellPosed, Covers, Scored, OnePerState, Rooted, ClosedExpanded, Inside, IsHeap, NodePool.Valid,
        NodePool.Live;
      HeldElements(mem, openSet);
      HeldElements(mem, closedSet);
    }

    /** Failure and cancellation give every node back. */
    method FreeAllNodes()
      requires Owned()
      modifies pool, pool.link, this`openSet, this`closedSet
      ensures pool.Valid() && pool.Live() == {}
      ensures openSet == [] && closedSet == []
    {
      hide NoDup, Held, Elements, Doomed, NodePool.Valid, NodePool.Live, Endless;
      ghost var closed := Elements(closedSet);
      DoomedAll(mem, openSet);
      DoomedAll(mem, closedSet);
      DestroyEach(openSet, false);
      assert pool.Live() == closed + {goal};
      DestroyEach(closedSet, false);
      assert pool.Live() == {goal};
      openSet, closedSet := [], [];
      pool.Deallocate(goal);
    }

    // ---- Expanding a node ----

    /** Node `a` is found on the open set at a higher cost. */
    method UpdateOpen(node: int, a: int, g: int)
      requires Running({node}) && Layout(View(), {node}) && a in Elements(openSet) && Improves(p, View(), node, a, g)
      modifies this`mem, this`depth, this`openSet
      ensures Running({node}) && View() == Relax(p, old(View()), node, a, g)
    {
      hide Elements, Inv, Grows, Reached, WellPosed, Covers, Improves, Layout, OpenOk, NoDup, NodePool.Valid;
      ghost var v := View();
      RelaxKeeps(p, v, node, a, g, universe);
      Placed(p, v, {node}, universe, a);
      Placed(p, v, {node}, universe, node);
      depth := depth[a := depth[node] + 1];
      mem := mem[a := mem[a].Update(node, g, Estimate(p, mem[a].state))];
      openSet := RebuildOpen(v.mem, mem, openSet);
      assert View().closed == v.closed - {a};
      assert View().open == v.open + {a};
    }

    /** Node `a`, at position `i` of the closed set, is re-opened at a lower cost. */
    method Reopen(node: int, i: nat, g: int)
      requires Running({node}) && Layout(View(), {node}) && i < |closedSet|
        && Improves(p, View(), node, closedSet[i], g)
      modifies this`mem, this`depth, this`openSet, this`closedSet
      ensures Running({node}) && View() == Relax(p, old(View()), node, old(closedSet[i]), g)
    {
      hide Elements, Inv, Grows, Reached, WellPosed, Covers, Improves, Layout, OpenOk, NoDup, NodePool.Valid;
      ghost var v := View();
      var a := closedSet[i];
      AtElement(closedSet, i);
      RelaxKeeps(p, v, node, a, g, universe);
      Placed(p, v, {node}, universe, a);
      Placed(p, v, {node}, universe, node);
      depth := depth[a := depth[node] + 1];
      mem := mem[a := mem[a].Update(node, g, Estimate(p, mem[a].state))];
      openSet := PushOpen(v.mem, mem, openSet, a);
      EraseElements(closedSet, i);
      closedSet := Without(closedSet, i);
    }

    /** A state seen for the first time gets a node. */
    method AddSuccessor(node: int, s: S, g: int) returns (a: int)
      requires Running({node}) && Layout(View(), {node})
      requires Edge(p, mem[node].state, s) && g == mem[node].g + p.cost(mem[node].state, s)
      requires Undiscovered(View(), {node}, s)
      modifies this`mem, this`depth, this`openSet, pool
      ensures Running({node})
      ensures old(Layout(View(), {node})) && Unseen(p, old(View()), node, a, s, g)
        && View() == Discover(p, old(View()), node, a, s, g)
    {
      hide Elements, Inv, Grows, Reached, WellPosed, Covers, Layout, OpenOk, NoDup, NodePool.Valid, NodePool.Live,
        Known, Undiscovered, Running;
      ghost var v := View();
      RunningParts(node);
      CurrentPlaced(p, v, node, universe);
      RoomForUnseen(p, v, node, s, universe);
      a := CreateNode(Node(s, g, Estimate(p, s), g + Estimate(p, s), node, NULL));
      DiscoverKeeps(p, v, node, a, s, g, universe);
      hide Discover;
      Enlist(node, a, s, g, v);
      RunningFrom(node);
    }

    /** Puts the node just created on the open set. */
    method Enlist(node: int, a: int, s: S, g: int, ghost v: View<S>)
      requires node in v.depth && a !in v.open && OpenOk(v.mem, openSet)
      requires View() == v.(mem := v.mem[a := Node(s, g, Estimate(p, s), g + Estimate(p, s), node, NULL)])
      modifies this`depth, this`openSet
      ensures OpenOk(mem, openSet) && View() == Discover(p, v, node, a, s, g)
    {
      hide Elements, OpenOk;
      depth := depth[a := depth[node] + 1];
      openSet := PushOpen(v.mem, mem, openSet, a);
    }

    lemma RunningParts(node: int)
      requires Running({node})
      ensures WellPosed(p) && Covers(p, universe) && Inv(p, View(), {node}, universe)
      ensures pool.Valid() && pool.Live() == Known(View(), {node}) + {goal} && |universe| + 1 <= pool.link.Length
      ensures OpenOk(mem, openSet) && NoDup(closedSet)
    {
    }

    lemma RunningFrom(node: int)
      requires WellPosed(p) && Covers(p, universe) && Inv(p, View(), {node}, universe)
      requires pool.Valid() && pool.Live() == Known(View(), {node}) + {goal} && |universe| + 1 <= pool.link.Length
      requires OpenOk(mem, openSet) && NoDup(closedSet)
      ensures Running({node})
    {
    }

    /** Relaxes the edge from `node` to one generated successor. */
    method ProcessSuccessor(node: int, s: S)
      requires Running({node}) && Layout(View(), {node}) && Edge(p, mem[node].state, s)
      modifies this`mem, this`depth, this`openSet, this`closedSet, pool
      ensures Running({node}) && Handled(p, old(View()), View(), node, s)
    {
      hide Inv, Covers, NodePool.Valid, NodePool.Live, IsHeap, Handled, Undiscovered, WellPosed, Relax, Discover;
      ghost var v := View();
      var g := mem[node].g + p.cost(mem[node].state, s);
      var a := FindState(mem, openSet, s);
      if a != NULL {
        if mem[a].g <= g {
          NothingBetter(p, v, node, a);
        } else {
          RelaxHandles(p, v, node, a, g, universe);
          UpdateOpen(node, a, g);
        }
      } else {
        var i := FindHash(mem, closedSet, p.hash, s);
        if i >= 0 {
          SameHash(p, mem[closedSet[i]].state, s);
          if mem[closedSet[i]].g <= g {
            NothingBetter(p, v, node, closedSet[i]);
          } else {
            RelaxHandles(p, v, node, closedSet[i], g, universe);
            Reopen(node, i, g);
          }
        } else {
          NotFound(p, v, node, s);
          var b := AddSuccessor(node, s, g);
          DiscoverHandles(p, v, node, b, s, g, universe);
        }
      }
    }

    /** Relaxes all edges of `node`. */
    method RelaxAll(node: int)
      requires Running({node}) && Layout(View(), {node})
      requires mem[node].parent != NULL ==> mem[node].parent in mem
      requires forall s :: s in Generated(p, mem, node) ==> Edge(p, mem[node].state, s)
      modifies this`mem, this`depth, this`openSet, this`closedSet, pool
      ensures Running({node}) && Swept(p, old(View()), View(), node, old(Generated(p, mem, node)))
    {
      hide Inv, Covers, NodePool.Valid, NodePool.Live, OpenOk, NoDup, Handled, Swept, WellPosed;
      ghost var v := View();
      var successors := Generated(p, mem, node);
      SweptNone(p, v, node);
      for i := 0 to |successors|
        invariant Running({node}) && Swept(p, v, View(), node, successors[..i])
      {
        ghost var w := View();
        SweptFacts(p, v, w, node, successors[..i]);
        ProcessSuccessor(node, successors[i]);
        SweptMore(p, v, w, View(), node, successors[..i], successors[i]);
        assert successors[..i] + [successors[i]] == successors[..i + 1];
      }
      assert successors[..|successors|] == successors;
    }

    /** Moves an expanded node to the closed set, which refuses a node whose hash it already holds. */
    method Close(node: int)
      requires WellPosed(p) && Inv(p, View(), {node}, universe) && NoDup(closedSet) && Layout(View(), {node})
      modifies this`closedSet
      ensures NoDup(closedSet) && Elements(closedSet) == old(Elements(closedSet)) + {node}
    {
      hide Inv, WellPosed, NoDup;
      var i := FindHash(mem, closedSet, p.hash, mem[node].state);
      if i >= 0 {
        NotClosedYet(p, View(), node, universe, closedSet[i]);
      } else {
        AppendElements(closedSet, node);
        closedSet := closedSet + [node];
      }
    }

    /** Takes a node with the least f-score off the open set. */
    method Pop() returns (node: int)
      requires Running({}) && openSet != []
      modifies this`openSet
      ensures Running({node}) && Layout(View(), {node})
      ensures node in old(View()).open && View() == old(View()).(open := old(View()).open - {node})
      ensures Least(mem, old(View()).open, node)
    {
      hide Inv, Elements, Known, Covers, NodePool.Valid, NodePool.Live, OpenOk, NoDup, WellPosed;
      ghost var v := View();
      node, openSet := PopOpen(mem, openSet);
      assert node in v.open;
      assert View() == v.(open := v.open - {node});
      hide Least;
      PopKeeps(p, v, node, universe);
      InvLayout(p, View(), {node}, universe);
      PopKnown(v, node);
    }

    /** Generates and relaxes the successors of the popped node and closes it. */
    method Expand(node: int, ghost before: View<S>)
      requires Running({node}) && Layout(View(), {node}) && mem[node].state != p.goal
      requires Layout(before, {}) && node in before.open && View() == before.(open := before.open - {node})
      modifies this`mem, this`depth, this`openSet, this`closedSet, pool
      ensures Running({}) && Layout(View(), {}) && LexLess(Measure(View(), universe), Measure(before, universe))
    {
      hide Inv, Covers, NodePool.Valid, NodePool.Live, OpenOk, NoDup, Swept, LexLess, Measure, Known, Elements;
      ghost var v := View();
      ParentInMemory(p, v, node, universe);
      hide WellPosed, Layout;
      ghost var generated := Generated(p, mem, node);
      RelaxAll(node);
      ghost var w := View();
      SweptFacts(p, v, w, node, generated);
      SweptExpands(p, v, w, node, universe);
      Close(node);
      assert View() == w.(closed := w.closed + {node});
      InvLayout(p, View(), {}, universe);
      CloseKnown(w, node);
      SweepDescends(p, before, node, w, generated, universe);
    }

    // ---- Reaching the goal ----

    /** Threads the solution path by following parent pointers back from the goal node. */
    method ReconstructPath(ghost n: int, ghost v: View<S>) returns (ghost trail: seq<int>)
      requires Inv(p, v, {}, universe) && n in v.open && n in v.mem && v.mem[n].state == p.goal
      requires v.start == start && v.goal == goal && goal in v.mem && mem == TakenOver(v, n)
      modifies this`mem, this`solutionCost
      ensures TrailOk(p, v, n, trail) && Linked(mem, TakenOver(v, n), trail)
      ensures trail[0] in v.mem && v.mem[trail[0]].state == p.start && solutionCost == v.mem[n].g
    {
      TrailBegins(p, v, n, universe);
      LinkBegins(mem, goal);
      hide Inv, TrailOk, Linked;
      var next, parent := goal, mem[goal].parent;
      trail := [goal];
      AtStart(p, v, n, mem, trail, universe);
      while mem[next].state != mem[start].state
        invariant TrailOk(p, v, n, trail) && Linked(mem, TakenOver(v, n), trail)
        invariant next == trail[0] && next in mem && start in mem && Cursor(n, trail) in v.mem
          && Cursor(n, trail) in v.depth
        invariant parent == v.mem[Cursor(n, trail)].parent
        invariant mem[next].state == mem[start].state <==> Cursor(n, trail) == v.start
        invariant trail[0] in v.mem && mem[start].state == p.start && mem[next].state == v.mem[trail[0]].state
        invariant v.mem[Cursor(n, trail)].g >= 0
        decreases v.mem[Cursor(n, trail)].g, v.depth[Cursor(n, trail)]
      {
        ReconstructStep(p, v, n, mem, trail, universe);
        mem := mem[parent := mem[parent].(next := next)];
        trail := [parent] + trail;
        next := parent;
        parent := mem[parent].parent;
        AtStart(p, v, n, mem, trail, universe);
      }
      GoalScore(mem, TakenOver(v, n), trail, goal);
      solutionCost := mem[goal].g;
    }

    /** Destroys the nodes the solution path does not use. */
    method FreeUnusedNodes(ghost n: int, ghost v: View<S>, ghost trail: seq<int>)
      requires Inv(p, v, {}, universe) && TrailOk(p, v, n, trail) && n in v.mem && v.goal in v.mem
      requires Linked(mem, TakenOver(v, n), trail) && Known(v, {}) <= mem.Keys
      requires Elements(openSet) == v.open - {n} && Elements(closedSet) == v.closed && n in v.open && v.open !! v.closed
      requires pool.Valid() && pool.Live() == Known(v, {}) - {n} + {v.goal} && v.goal !in Known(v, {})
      requires NoDup(openSet) && NoDup(closedSet)
      modifies pool, pool.link, this`openSet, this`closedSet
      ensures pool.Valid() && pool.Live() == Elements(trail) && |openSet| == |closedSet| == 0
    {
      hide Inv, TrailOk, Linked, NoDup, NodePool.Valid, NodePool.Live;
      TrailRemains(p, v, n, mem, trail, universe);
      HeldElements(mem, openSet);
      HeldElements(mem, closedSet);
      TwoPasses(mem, pool.Live(), Elements(openSet), Elements(closedSet));
      assert Elements(openSet) + Elements(closedSet) == Known(v, {}) - {n};
      DoomedSpares(mem, openSet, true, Elements(closedSet), pool.Live());
      hide Unlinked, Elements, Known;
      DestroyEach(openSet, true);
      DestroyEach(closedSet, true);
      openSet, closedSet := [], [];
    }

    /** The popped node has the goal state: the separate goal node takes its place, the path is threaded and
        every other node is destroyed. */
    method Succeed(node: int, ghost v: View<S>)
      requires WellPosed(p) && Inv(p, v, {}, universe) && Least(v.mem, v.open, node) && v.mem[node].state == p.goal
      requires Layout(v, {}) && node in v.open && View() == v.(open := v.open - {node}) && Stored({node})
        && node in v.mem && goal in v.mem
      modifies this`mem, this`openSet, this`closedSet, this`solutionCost, this`walk, pool, pool.link
      ensures Solved() && |openSet| == |closedSet| == 0
    {
      hide WellPosed, Inv, Least, NodePool.Valid, NodePool.Live, NoDup, TrailOk, Linked, Threads, Elements, IsHeap,
        PathBetween, IsPath;
      PopKnown(v, node);
      pool.LiveInRange(start);
      mem := mem[goal := mem[goal].(parent := mem[node].parent, g := mem[node].g)];
      pool.Deallocate(node);
      ghost var trail := ReconstructPath(node, v);
      LinkedKeys(mem, TakenOver(v, node), trail);
      FreeUnusedNodes(node, v, trail);
      WalkThreads(p, v, node, mem, trail, universe);
      WalkSolves(p, v, node, mem, trail, universe);
      walk := Walk(p, v, trail);
      SingletonElements(goal);
    }

    // ---- The search ----

    /** Advances to the next best node. A step that leaves the search running lowers the measure, so no graph
        with finitely many reachable states is searched forever. */
    method Step(cancel: bool) returns (r: Status)
      requires Valid()
      modifies this, pool, pool.link
      ensures Valid() && r == status
      ensures old(status) != RUNNING ==> status == old(status) && steps == old(steps) && walk == old(walk)
      ensures old(status) == RUNNING && (cancel || old(openSet) == []) ==> status == FAILURE && steps == old(steps)
      ensures old(status) == RUNNING && !cancel && old(openSet) != [] ==> status != FAILURE && steps == old(steps) + 1
      ensures old(status) == RUNNING && status != RUNNING ==> |openSet| == |closedSet| == 0
      ensures cancelled <==> old(cancelled) || (old(status) == RUNNING && old(openSet) != [] && cancel)
      ensures status == RUNNING ==> old(status) == RUNNING && !cancel && Descended(old(View()), View(), universe)
    {
      hide WellPosed, Covers, Inv, OpenOk, NoDup, Threads, PathBetween, PathCost, Cheapest, States, NoPath, Descended,
        NodePool.Valid, NodePool.Live, Elements, Known;
      if status != RUNNING {
        return status;
      }
      InvLayout(p, View(), {}, universe);
      if openSet == [] || cancel {
        NoOpenNodes(openSet);
        if openSet == [] {
          EmptyOpenMeansNoPath(p, View(), universe);
          assert NoPath(p) by { NoPathFold(p); }
        } else {
          cancelled := true;
        }
        RunningOwned();
        FreeAllNodes();
        status := FAILURE;
        return status;
      }
      ghost var v := View();
      steps := steps + 1;
      var node := Pop();
      InvLayout(p, v, {}, universe);
      GoalNodeState(p, v, universe);
      if mem[node].state == mem[goal].state {
        Succeed(node, v);
        status := SUCCESS;
        return status;
      }
      Expand(node, v);
      DescendedFold(v, View(), universe);
      return status;
    }

    /** While the search runs the f-score of a node is its g-score plus what the heuristic says of its state. */
    lemma Scores(a: int)
      requires Valid() && status == RUNNING && (a in openSet || a in closedSet)
      ensures a in mem && mem[a].g >= 0 && mem[a].f == mem[a].g + p.heuristic(mem[a].state, p.goal)
    {
      hide WellPosed, Covers, OnePerState, Rooted, ClosedExpanded, Inside, OpenOk, NoDup, NodePool.Valid, NodePool.Live;
      if a in openSet {
        var i :| 0 <= i < |openSet| && openSet[i] == a;
        AtElement(openSet, i);
      } else {
        var i :| 0 <= i < |closedSet| && closedSet[i] == a;
        AtElement(closedSet, i);
      }
      assert a in Known(View(), {});
    }

    /** Runs the search to its end; `cancel` answers the cancel request polled before step `k`. Success means a
        cheapest path has been found, and failure that there is none or that the last poll asked to stop. Every step
        was taken after a poll that did not. */
    method Search(cancel: nat -> bool) returns (r: Status)
      requires Valid() && !cancelled
      modifies this, pool, pool.link
      ensures Valid() && r == status && r != RUNNING && steps >= old(steps)
      ensures forall k :: old(steps) <= k < steps ==> !cancel(k)
      ensures r == FAILURE ==> NoPath(p) || cancel(steps)
      ensures r == SUCCESS ==> Cheapest(p, solutionCost) && !NoPath(p)
      ensures old(status) == RUNNING && cancel(old(steps)) ==> r == FAILURE && steps == old(steps)
      ensures old(status) == RUNNING && r == SUCCESS ==> steps > old(steps)
      ensures old(status) != RUNNING ==> r == old(status) && steps == old(steps)
    {
      hide Valid, NoPath, Cheapest, Descended, Rank, LexLess, Elements;
      r := Step(cancel(steps));
      while r == RUNNING
        invariant Valid() && r == status && steps >= old(steps)
        invariant forall k :: old(steps) <= k < steps ==> !cancel(k)
        invariant cancelled ==> cancel(steps)
        invariant old(status) == RUNNING && cancel(old(steps)) ==> r == FAILURE && steps == old(steps)
        invariant old(status) == RUNNING && r != FAILURE ==> steps > old(steps)
        invariant old(status) != RUNNING ==> r == old(status) && steps == old(steps)
        decreases r == RUNNING, Rank(View(), universe).0, Rank(View(), universe).1, Rank(View(), universe).2
      {
        ghost var v := View();
        RankBounded();
        r := Step(cancel(steps));
        if r == RUNNING {
          RankDescends(v, View(), universe);
        }
      }
      if r == SUCCESS {
        SolvedMeans();
      } else {
        FailedMeans();
      }
    }

    lemma RankBounded()
      requires Valid() && status == RUNNING
      ensures var r := Rank(View(), universe); r.0 >= 0 && r.1 >= 0 && r.2 >= 0
    {
      hide Inv, Stored, WellPosed, Covers;
      MeasureBounded(p, View(), universe);
    }

    lemma FailedMeans()
      requires Valid() && status == FAILURE
      ensures cancelled || NoPath(p)
    {
    }

    lemma SolvedMeans()
      requires Valid() && status == SUCCESS
      ensures Cheapest(p, solutionCost) && !NoPath(p)
    {
      SolvedAtLast();
      hide NodePool.Valid, NodePool.Live, Cheapest, PathCost;
      var xs := States(mem, walk);
      assert PathBetween(p, xs, p.start, p.goal);
    }

    /** Visits the states of the solution path from start to goal. The nodes it reads are allocated exactly when the
        start is not the goal; otherwise the one node it reads is the start node, which has been destroyed. */
    method WalkPath() returns (visited: seq<S>)
      requires Valid() && status == SUCCESS
      ensures PathBetween(p, visited, p.start, p.goal)
      ensures PathCost(p, visited) == solutionCost
      ensures Cheapest(p, solutionCost)
      ensures Held(mem, walk) && visited == States(mem, walk)
      ensures forall a :: a in walk ==> (a in pool.Live() <==> p.start != p.goal)
    {
      hide Valid, Solved, PathBetween, PathCost, Cheapest, NodePool.Live, States, Threads;
      SolvedAtLast();
      WalkFacts();
      WalkedNodes();
      visited := FollowNext();
    }

    lemma SolvedAtLast()
      requires Valid() && status == SUCCESS
      ensures Solved()
    {
    }

    method FollowNext() returns (visited: seq<S>)
      requires Threads(mem, walk) && walk[0] == start
      ensures Held(mem, walk) && visited == States(mem, walk)
    {
      visited := [];
      var node := start;
      while node != NULL
        invariant |visited| <= |walk| && node == Entry(walk, |visited|)
        invariant visited == States(mem, walk)[..|visited|]
        decreases |walk| - |visited|
      {
        visited := visited + [mem[node].state];
        node := mem[node].next;
      }
      assert States(mem, walk)[..|walk|] == States(mem, walk);
    }

    lemma WalkFacts()
      requires Solved()
      ensures Threads(mem, walk) && Held(mem, walk) && walk[0] == start
      ensures PathBetween(p, States(mem, walk), p.start, p.goal)
      ensures PathCost(p, States(mem, walk)) == solutionCost && Cheapest(p, solutionCost)
    {
    }

    lemma WalkedNodes()
      requires Solved()
      ensures forall a :: a in walk ==> (a in pool.Live() <==> p.start != p.goal)
    {
      hide PathCost, Cheapest, NodePool.Valid, NodePool.Live;
    }

    /** The destructor walks from the start node, so it frees a live node first exactly when the start state
        is not the goal state. Otherwise it frees the destroyed start node again and leaves the goal node allocated,
        and its leak check does not notice: the count is one, and one node is freed. */
    lemma DestructorStart()
      requires Valid() && status == SUCCESS
      ensures start in pool.Live() <==> p.start != p.goal
      ensures goal in pool.Live()
      ensures p.start == p.goal ==> walk == [start] && pool.Live() == {goal} && pool.allocationCount == 1
    {
      pool.CountIsLive();
      hide PathCost, Cheapest, NodePool.Valid, NodePool.Live;
      AtElement(walk, 0);
      AtElement(walk, |walk| - 1);
    }

    /** The destructor gives back every node that is still allocated, each once. If the start was the goal it gives
        the start node back a second time instead, which leaves the goal node allocated and the free list endless,
        and its leak check passes all the same. */
    method Destroy()
      requires Valid() && status != RUNNING
      modifies pool, pool.link
      ensures pool.allocationCount == 0
      ensures status == FAILURE || p.start != p.goal ==> pool.Valid() && pool.Live() == {}
      ensures status == SUCCESS && p.start == p.goal ==> old(pool.Live()) == {goal} && Endless(pool.link[..], pool.head)
    {
      if status == SUCCESS {
        DestructorStart();
      }
      hide PathBetween, PathCost, Cheapest, NodePool.Valid, NodePool.Live, NoPath, Endless;
      if status == SUCCESS {
        var node := start;
        ghost var i := 0;
        assert walk[0..] == walk;
        while node != NULL
          invariant 0 <= i <= |walk| && node == Entry(walk, i)
          invariant p.start != p.goal || i == 0 ==> pool.Valid()
          invariant p.start != p.goal ==> pool.Live() == Elements(walk[i..])
          invariant p.start == p.goal && i == 0 ==> pool.Live() == {goal} && pool.allocationCount == 1
          invariant p.start == p.goal && i > 0 ==> pool.allocationCount == 0 && Endless(pool.link[..], pool.head)
          decreases |walk| - i
        {
          WalkRest(mem, walk, i);
          pool.Deallocate(node);
          node := mem[node].next;
          i := i + 1;
        }
        NoOpenNodes(walk[i..]);
      }
      if status == FAILURE || p.start != p.goal {
        pool.CountIsLive();
      }
    }
  }
}
