/** A well-founded order on bags of ranks: removing one element and adding any number of smaller ones goes down. */
module RankOrder {

  /** Lexicographic order on count vectors of the same length. */
  ghost predicate LexLess(w: seq<nat>, v: seq<nat>)
    decreases |w|
  {
    |w| == |v| > 0 && (w[0] < v[0] || (w[0] == v[0] && LexLess(w[1..], v[1..])))
  }

  /** Every descending chain from `v` ends. */
  least predicate Ends(v: seq<nat>)
  {
    forall w: seq<nat> :: LexLess(w, v) ==> Ends(w)
  }

  /** One step down takes a smaller ordinal. */
  lemma Descend(o: ORDINAL, v: seq<nat>, w: seq<nat>) returns (p: ORDINAL)
    requires Ends#[o](v) && LexLess(w, v)
    ensures p < o && Ends#[p](w)
    decreases o
  {
    if o.IsLimit {
      var q: ORDINAL :| q < o && Ends#[q](v);
      p := Descend(q, v, w);
    } else {
      p := o - 1;
    }
  }

  lemma {:induction false} EndsBelow(o: ORDINAL, n: nat, u: seq<nat>)
    requires Ends#[o](u)
    requires forall m: nat, t: seq<nat> :: m < n && |t| == |u| ==> Ends([m] + t)
    ensures Ends([n] + u)
    decreases o
  {
    forall w: seq<nat> | LexLess(w, [n] + u)
      ensures Ends(w)
    {
      assert ([n] + u)[1..] == u && w == [w[0]] + w[1..];
      if w[0] == n {
        var p := Descend(o, u, w[1..]);
        EndsBelow(p, n, w[1..]);
      }
    }
  }

  lemma {:induction false} EndsHead(n: nat, u: seq<nat>)
    requires forall t: seq<nat> :: |t| == |u| ==> Ends(t)
    ensures Ends([n] + u)
    decreases n
  {
    forall m: nat, t: seq<nat> | m < n && |t| == |u|
      ensures Ends([m] + t)
    {
      EndsHead(m, t);
    }
    assert Ends(u);
    var o: ORDINAL :| Ends#[o](u);
    EndsBelow(o, n, u);
  }

  /** The order is well-founded on vectors of every length. */
  lemma {:induction false} AlwaysEnds(v: seq<nat>)
    ensures Ends(v)
    decreases |v|
  {
    if v == [] {
      assert forall w: seq<nat> :: !LexLess(w, v);
    } else {
      forall t: seq<nat> | |t| == |v| - 1
        ensures Ends(t)
      {
        AlwaysEnds(t);
      }
      EndsHead(v[0], v[1..]);
      assert v == [v[0]] + v[1..];
    }
  }

  /** How many elements of each rank below `top`, highest rank first. */
  ghost function Counts(bag: multiset<nat>, top: nat): (v: seq<nat>)
    ensures |v| == top
  {
    if top == 0 then [] else [bag[top - 1]] + Counts(bag, top - 1)
  }

  lemma {:induction false} ReplaceByLower(bag: multiset<nat>, r: nat, more: multiset<nat>, top: nat)
    requires r in bag && r < top
    requires forall x: nat :: x in more ==> x < r
    ensures LexLess(Counts(bag - multiset{r} + more, top), Counts(bag, top))
    decreases top
  {
    var next := bag - multiset{r} + more;
    var t := top - 1;
    assert Counts(next, top)[1..] == Counts(next, t) && Counts(bag, top)[1..] == Counts(bag, t);
    if r == t {
      assert t !in more;
    } else {
      assert t !in more;
      ReplaceByLower(bag, r, more, t);
    }
  }
}
