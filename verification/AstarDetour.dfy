/** A search that has to mend its way: four states in which the heuristic first draws the search along a dearer edge,
    so that a closed state is found again at lower cost. */
module AstarDetour {
  import opened Basics
  import opened SearchGraph
  import opened AstarInvariant
  import opened AstarSearch
  import opened NodePools

  // Edges 0-1 (1), 0-2 (3), 1-2 (1) and 2-3 (10). The heuristic is exact for state 1 and zero elsewhere, so state 2 is
  // expanded at cost 3 before the way through state 1 shows its cost to be 2.

  type State = s: int | 0 <= s < 4

  function Toll(u: State, v: State): nat
  {
    if u + v == 1 then 1 else if u + v == 2 then 3 else if u + v == 3 then 1 else 10
  }

  function Guess(s: State, t: State): int { if s == 1 && t == 3 then 11 else 0 }

  function Neighbours(s: State): seq<State>
  {
    if s == 0 then [1, 2] else if s == 1 then [0, 2] else if s == 2 then [0, 1, 3] else [2]
  }

  function Skip(ss: seq<State>, s: State): (r: seq<State>)
    ensures forall v :: v in r <==> v in ss && v != s
  {
    if ss == [] then [] else (if ss[0] == s then [] else [ss[0]]) + Skip(ss[1..], s)
  }

  const DETOUR: Problem<State> := Problem(
    (s: State) => s as nat,
    Toll,
    Guess,
    (s: State, parent: Option<State>) => if parent.Some? then Skip(Neighbours(s), parent.value) else Neighbours(s),
    0, 3)

  lemma Edges(u: State, v: State)
    ensures Edge(DETOUR, u, v) <==> Joined(u, v)
    ensures DETOUR.cost(u, v) == Toll(u, v)
  {
    assert DETOUR.successors(u, None) == Neighbours(u);
  }

  predicate Joined(u: State, v: State)
  {
    u + v == 1 || (u + v == 2 && u != 1) || (u + v == 3 && u * v == 2) || u + v == 5
  }

  /** The true distance to state 3. */
  function Distance(s: State): nat { if s == 0 then 12 else if s == 1 then 11 else if s == 2 then 10 else 0 }

  lemma {:induction false} PathsCostMore(xs: seq<State>, s: State)
    requires PathBetween(DETOUR, xs, s, 3)
    ensures Distance(s) <= PathCost(DETOUR, xs)
    decreases |xs|
  {
    if |xs| > 1 {
      PathTail(DETOUR, xs);
      Edges(xs[0], xs[1]);
      PathsCostMore(xs[1..], xs[1]);
    }
  }

  lemma DetourWellPosed()
    ensures WellPosed(DETOUR) && Covers(DETOUR, {0, 1, 2, 3})
  {
    forall s, xs | PathBetween(DETOUR, xs, s, 3) ensures DETOUR.heuristic(s, 3) <= PathCost(DETOUR, xs) {
      PathsCostMore(xs, s);
    }
    forall u: State, v: State ensures Edge(DETOUR, u, v) <==> Joined(u, v) {
      Edges(u, v);
    }
    forall u: State, q: State, v: State
      ensures v in DETOUR.successors(u, Some(q)) <==> Joined(u, v) && v != q
    {
      Edges(u, v);
      assert DETOUR.successors(u, Some(q)) == Skip(Neighbours(u), q);
    }
    hide Neighbours, Skip, Joined;
  }

  /** On a path that costs no more than the distance each step is forced. */
  lemma NextOnTheWay(xs: seq<State>, s: State)
    requires PathBetween(DETOUR, xs, s, 3) && PathCost(DETOUR, xs) == Distance(s)
    ensures if s == 3 then xs == [3]
            else |xs| > 1 && xs[1] == s + 1 && PathBetween(DETOUR, xs[1..], s + 1, 3)
                 && PathCost(DETOUR, xs[1..]) == Distance(s + 1)
  {
    if |xs| > 1 {
      PathTail(DETOUR, xs);
      Edges(xs[0], xs[1]);
      PathsCostMore(xs[1..], xs[1]);
    }
  }

  lemma TheWay()
    ensures PathBetween(DETOUR, [0, 1, 2, 3], 0, 3) && PathCost(DETOUR, [0, 1, 2, 3]) == 12
  {
    var xs := [0, 1, 2, 3];
    Edges(0, 1);
    Edges(1, 2);
    Edges(2, 3);
    assert xs[1..] == [1, 2, 3] && xs[1..][1..] == [2, 3] && xs[1..][1..][1..] == [3];
    assert PathCost(DETOUR, [2, 3]) == 10 + PathCost(DETOUR, [3]);
    assert PathCost(DETOUR, [1, 2, 3]) == 1 + PathCost(DETOUR, [2, 3]);
  }

  lemma OnlyWay(xs: seq<State>)
    requires PathBetween(DETOUR, xs, 0, 3) && PathCost(DETOUR, xs) == 12
    ensures xs == [0, 1, 2, 3]
  {
    NextOnTheWay(xs, 0);
    NextOnTheWay(xs[1..], 1);
    NextOnTheWay(xs[1..][1..], 2);
    NextOnTheWay(xs[1..][1..][1..], 3);
    hide PathBetween, PathCost;
  }

  /** The search ends at cost 12, by way of state 1. */
  method FindDetour() returns (r: Status, cost: int, visited: seq<State>)
    ensures r == SUCCESS && cost == 12 && visited == [0, 1, 2, 3]
  {
    hide WellPosed, Covers, PathBetween, PathCost, Astar.Valid, Astar.Solved, Astar.Running, Astar.Stored, Elements,
      Inv;
    DetourWellPosed();
    TheWay();
    var search := new Astar(DETOUR, 5, {0, 1, 2, 3});
    r := search.Search(_ => false);
    visited := search.WalkPath();
    cost := search.solutionCost;
    assert PathCost(DETOUR, visited) <= 12 by {
      assert Cheapest(DETOUR, cost);
    }
    PathsCostMore(visited, 0);
    OnlyWay(visited);
  }
}
