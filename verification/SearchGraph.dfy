/** The search problem a user hands to the A* search: a state type with a hash, transition
    costs, a heuristic and a successor generator. Costs are idealised as exact integers:
    finitely many floating-point costs can always be scaled to integers. */
module SearchGraph {
  import opened Basics

  datatype Problem<!S(!new, ==)> = Problem(
    hash: S -> nat,
    cost: (S, S) -> nat,
    heuristic: (S, S) -> int,
    successors: (S, Option<S>) -> seq<S>,
    start: S,
    goal: S)

  /** The graph being searched: the successors a state has when no parent is named. */
  predicate Edge<S(!new, ==)>(p: Problem<S>, u: S, v: S)
  {
    v in p.successors(u, None)
  }

  ghost predicate IsPath<S(!new)>(p: Problem<S>, xs: seq<S>)
  {
    |xs| > 0 && forall i :: 0 <= i < |xs| - 1 ==> Edge(p, xs[i], xs[i + 1])
  }

  ghost predicate PathBetween<S(!new)>(p: Problem<S>, xs: seq<S>, s: S, t: S)
  {
    IsPath(p, xs) && xs[0] == s && xs[|xs| - 1] == t
  }

  ghost function PathCost<S(!new)>(p: Problem<S>, xs: seq<S>): nat
  {
    if |xs| <= 1 then 0 else p.cost(xs[0], xs[1]) + PathCost(p, xs[1..])
  }

  /** The heuristic never overestimates the cost of any path to the goal (it need not be consistent). */
  ghost predicate Admissible<S(!new)>(p: Problem<S>)
  {
    forall s, xs :: PathBetween(p, xs, s, p.goal) ==> p.heuristic(s, p.goal) <= PathCost(p, xs)
  }

  /** The closed set compares hashes only, so different states must hash differently. */
  ghost predicate InjectiveHash<S(!new)>(p: Problem<S>)
  {
    forall s, t :: p.hash(s) == p.hash(t) ==> s == t
  }

  /** Successor lists never hold the state itself, and naming a parent may drop that parent and nothing else. */
  ghost predicate FaithfulSuccessors<S(!new)>(p: Problem<S>)
  {
    && (forall u :: !Edge(p, u, u))
    && (forall u, q, v :: v in p.successors(u, Some(q)) ==> Edge(p, u, v))
    && (forall u, q, v :: Edge(p, u, v) && v != q ==> v in p.successors(u, Some(q)))
  }

  /** What the search asks of its state type. */
  ghost predicate WellPosed<S(!new)>(p: Problem<S>)
  {
    Admissible(p) && p.heuristic(p.goal, p.goal) == 0 && InjectiveHash(p) && FaithfulSuccessors(p)
  }

  lemma SameHash<S(!new)>(p: Problem<S>, s: S, t: S)
    requires WellPosed(p) && p.hash(s) == p.hash(t)
    ensures s == t
  {
  }

  /** A finite set of states the search can never leave. */
  ghost predicate Covers<S(!new)>(p: Problem<S>, universe: set<S>)
  {
    p.start in universe && forall u, v :: u in universe && Edge(p, u, v) ==> v in universe
  }

  /** Extending a path at its front. */
  lemma PathCons<S(!new)>(p: Problem<S>, u: S, xs: seq<S>)
    requires IsPath(p, xs) && Edge(p, u, xs[0])
    ensures IsPath(p, [u] + xs)
    ensures PathCost(p, [u] + xs) == p.cost(u, xs[0]) + PathCost(p, xs)
  {
    assert ([u] + xs)[1..] == xs;
  }

  lemma PathTail<S(!new)>(p: Problem<S>, xs: seq<S>)
    requires IsPath(p, xs) && |xs| >= 2
    ensures IsPath(p, xs[1..]) && Edge(p, xs[0], xs[1])
    ensures PathCost(p, xs) == p.cost(xs[0], xs[1]) + PathCost(p, xs[1..])
  {
  }
}
