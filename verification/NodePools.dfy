/** The search's node pool: one block of slots threaded by an intrusive free list. A slot's address is
    its index in the block. */
module NodePools {
  import opened Basics
  import opened Nodes

  /** Element `i` of the free list, or null past its end. */
  function Entry(s: seq<int>, i: nat): int { if i < |s| then s[i] else NULL }

  /** Following `link` from `head` visits exactly the slots of `free`, each once, and then stops. */
  ghost predicate Chain(link: seq<int>, head: int, free: seq<int>)
  {
    && head == Entry(free, 0)
    && (forall i :: 0 <= i < |free| ==> 0 <= free[i] < |link|)
    && (forall i, j :: 0 <= i < j < |free| ==> free[i] != free[j])
    && (forall i :: 0 <= i < |free| ==> link[free[i]] == Entry(free, i + 1))
  }

  ghost function Elements(s: seq<int>): (r: set<int>) { set a | a in s }

  lemma AtElement(s: seq<int>, i: nat)
    requires i < |s|
    ensures s[i] in Elements(s)
  {
  }

  lemma {:induction false} ElementsCount(s: seq<int>)
    requires forall i, j :: 0 <= i < j < |s| ==> s[i] != s[j]
    ensures |Elements(s)| == |s|
  {
    if s != [] {
      var n := |s| - 1;
      ElementsCount(s[..n]);
      assert Elements(s) == Elements(s[..n]) + {s[n]};
    }
  }

  /** Every slot is either on the free list or live. */
  lemma LiveCount(link: seq<int>, head: int, free: seq<int>)
    requires Chain(link, head, free)
    ensures |Range(|link|) - Elements(free)| == |link| - |free|
  {
    ElementsCount(free);
    assert Elements(free) <= Range(|link|);
  }

  lemma ChainPop(link: seq<int>, head: int, free: seq<int>)
    requires Chain(link, head, free) && free != []
    ensures Chain(link, link[head], free[1..])
    ensures 0 <= head < |link| && head == free[0] && head !in free[1..]
  {
    var rest := free[1..];
    assert forall i :: 0 <= i < |rest| ==> rest[i] == free[i + 1];
  }

  lemma PopFrees(n: nat, free: seq<int>)
    requires free != [] && 0 <= free[0] < n && free[0] !in free[1..]
    ensures Range(n) - Elements(free[1..]) == Range(n) - Elements(free) + {free[0]}
  {
    assert forall a :: a in free <==> a == free[0] || a in free[1..];
  }

  lemma ChainPush(link: seq<int>, head: int, free: seq<int>, a: int)
    requires Chain(link, head, free) && 0 <= a < |link| && a !in free
    ensures Chain(link[a := head], a, [a] + free)
  {
    var grown := [a] + free;
    assert grown[0] == a && forall i :: 0 < i < |grown| ==> grown[i] == free[i - 1];
    assert forall i :: 0 < i < |grown| ==> link[a := head][grown[i]] == link[free[i - 1]];
  }

  /** Following `link` from `head` never comes to an end, or leaves the pool. */
  ghost predicate Endless(link: seq<int>, head: int)
  {
    forall free: seq<int> :: !Chain(link, head, free)
  }

  lemma {:induction false} SamePath(link: seq<int>, head: int, free: seq<int>, a: int, k: nat, again: seq<int>, i: nat)
    requires Chain(link, head, free) && k < |free| && free[k] == a && Chain(link[a := head], a, again) && i <= k
    ensures i + 1 < |again| && again[i + 1] == free[i]
  {
    assert again != [] && again[0] == a;
    if i == 0 {
      assert link[a := head][again[0]] == head == free[0];
    } else {
      SamePath(link, head, free, a, k, again, i - 1);
      assert free[i - 1] != a;
      assert link[a := head][again[i]] == link[free[i - 1]] == free[i];
    }
  }

  /** A slot given back twice leads to itself, so the free list has no end. */
  lemma DoubleFree(link: seq<int>, head: int, free: seq<int>, a: int)
    requires Chain(link, head, free) && a in free
    ensures Endless(link[a := head], a)
  {
    var k :| 0 <= k < |free| && free[k] == a;
    var next := link[a := head];
    forall again: seq<int>
      ensures !Chain(next, a, again)
    {
      if Chain(next, a, again) {
        SamePath(link, head, free, a, k, again, k);
      }
    }
  }

  ghost function Ascending(n: nat): (r: seq<int>)
    ensures |r| == n && forall i :: 0 <= i < n ==> r[i] == i
  {
    if n == 0 then [] else Ascending(n - 1) + [n - 1]
  }

  lemma AllFree(n: nat)
    ensures Range(n) - Elements(Ascending(n)) == {}
  {
    var free := Ascending(n);
    hide Range, Ascending;
    forall a | a in Range(n) ensures a in Elements(free) {
      assert free[a] == a;
      AtElement(free, a);
    }
  }

  lemma InitialChain(link: seq<int>)
    requires |link| > 0 && link[|link| - 1] == NULL
    requires forall k :: 0 <= k < |link| - 1 ==> link[k] == k + 1
    ensures Chain(link, 0, Ascending(|link|))
    ensures Range(|link|) - Elements(Ascending(|link|)) == {}
  {
    hide Ascending, Elements, Range;
    AllFree(|link|);
  }

  class NodePool {
    const link: array<int>
    var head: int
    var allocationCount: int
    ghost var free: seq<int>

    ghost predicate Valid()
      reads this, link
    {
      Chain(link[..], head, free) && allocationCount == link.Length - |free|
    }

    /** The addresses handed out and not yet returned. */
    ghost function Live(): (r: set<int>)
      reads this
    {
      Range(link.Length) - Elements(free)
    }

    constructor (maxNodes: nat)
      requires maxNodes > 0
      ensures Valid() && Live() == {} && link.Length == maxNodes && fresh(link)
      ensures free == Ascending(maxNodes)
    {
      link := new int[maxNodes];
      head := 0;
      allocationCount := 0;
      free := Ascending(maxNodes);
      new;
      for ii := 0 to maxNodes - 1
        invariant head == allocationCount == 0 && free == Ascending(maxNodes)
        invariant forall k :: 0 <= k < ii ==> link[k] == k + 1
      {
        link[ii] := ii + 1;
      }
      link[maxNodes - 1] := NULL;
      InitialChain(link[..]);
    }

    method Allocate() returns (a: int)
      requires Valid()
      modifies this
      ensures Valid()
      ensures old(free) == [] ==> a == NULL && Live() == old(Live())
      ensures old(free) != [] ==> 0 <= a < link.Length && a !in old(Live()) && Live() == old(Live()) + {a}
      ensures old(free) != [] ==> old(free) == [a] + free
    {
      if head == NULL {
        assert free == [];
        return NULL;
      }
      ChainPop(link[..], head, free);
      PopFrees(link.Length, free);
      allocationCount := allocationCount + 1;
      a := head;
      head := link[a];
      free := free[1..];
    }

    /** Gives a slot back. Giving back one that is not handed out closes the free list into a ring. */
    method Deallocate(a: int)
      requires Valid() && (a in Live() || 0 <= a < link.Length)
      modifies this, link
      ensures allocationCount == old(allocationCount) - 1
      ensures a in old(Live()) ==> Valid() && Live() == old(Live()) - {a} && free == [a] + old(free)
      ensures a !in old(Live()) ==> Endless(link[..], head)
    {
      if a in free {
        DoubleFree(link[..], head, free, a);
      } else {
        ChainPush(link[..], head, free, a);
      }
      allocationCount := allocationCount - 1;
      ghost var before := link[..];
      link[a] := head;
      assert link[..] == before[a := head];
      head := a;
      free := [a] + free;
    }

    lemma LiveInRange(a: int)
      requires a in Live()
      ensures 0 <= a < link.Length
    {
    }

    /** A pool with a slot to spare always allocates. */
    lemma HasRoom()
      requires Valid() && |Live()| < link.Length
      ensures free != []
    {
      LiveCount(link[..], head, free);
    }

    /** The destructor's leak check passes exactly when nothing is live. */
    lemma CountIsLive()
      requires Valid()
      ensures allocationCount == |Live()|
    {
      LiveCount(link[..], head, free);
    }
  }
}
