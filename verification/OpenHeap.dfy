/** The open set's binary heap: a vector of node addresses ordered by f-score, kept by the three
    standard heap algorithms the search calls. */
module OpenHeap {
  import opened Nodes

  /** The f-scores along the heap vector. */
  ghost function Keys<S>(mem: map<int, Node<S>>, s: seq<int>): seq<int>
    requires Held(mem, s)
  {
    seq(|s|, i requires 0 <= i < |s| => mem[s[i]].f)
  }

  ghost predicate Held<S>(mem: map<int, Node<S>>, s: seq<int>)
  {
    forall i :: 0 <= i < |s| ==> s[i] in mem
  }

  /** `c` is a child slot of `i`. */
  predicate Branch(i: int, c: int) { c == 2 * i + 1 || c == 2 * i + 2 }

  /** Slot `i` is no larger than its children. */
  ghost predicate Tops(ks: seq<int>, i: int)
    requires 0 <= i < |ks|
  {
    && (2 * i + 1 < |ks| ==> ks[i] <= ks[2 * i + 1])
    && (2 * i + 2 < |ks| ==> ks[i] <= ks[2 * i + 2])
  }

  ghost predicate IsHeap(ks: seq<int>)
  {
    forall i :: 0 <= i < |ks| ==> Tops(ks, i)
  }

  ghost predicate HeapFrom(ks: seq<int>, at: int)
  {
    forall i :: 0 <= at <= i < |ks| ==> Tops(ks, i)
  }

  /** Everything is ordered once slot `i` is skipped: its parent is below its children. */
  ghost predicate HeapUpTo(ks: seq<int>, i: int, k: int)
    requires 0 <= i < |ks| && (i == 0 || (0 <= k < |ks| && Branch(k, i)))
  {
    && (forall j :: 0 <= j < |ks| && (i > 0 ==> j != k) ==> Tops(ks, j))
    && (i > 0 ==> (forall c :: 0 <= c < |ks| && ((Branch(k, c) && c != i) || Branch(i, c)) ==> ks[k] <= ks[c]))
  }

  ghost predicate HeapDownFrom(ks: seq<int>, at: int, i: int)
    requires 0 <= at <= i < |ks|
  {
    && (forall j :: at <= j < |ks| && j != i ==> Tops(ks, j))
    && (forall k, c :: at <= k < |ks| && Branch(k, i) && 0 <= c < |ks| && Branch(i, c) ==> ks[k] <= ks[c])
  }

  /** The front of a heap is its least key. */
  lemma {:induction false} FrontIsLeast(ks: seq<int>, j: nat)
    requires IsHeap(ks) && j < |ks|
    ensures ks[0] <= ks[j]
    decreases j
  {
    if j > 0 {
      var k := (j - 1) / 2;
      assert Tops(ks, k) && Branch(k, j);
      FrontIsLeast(ks, k);
    }
  }

  function Swap<T>(s: seq<T>, i: int, j: int): (r: seq<T>)
    requires 0 <= i < |s| && 0 <= j < |s|
    ensures |r| == |s|
  {
    s[i := s[j]][j := s[i]]
  }

  lemma SwapPermutes(s: seq<int>, i: int, j: int)
    requires 0 <= i < |s| && 0 <= j < |s|
    ensures multiset(Swap(s, i, j)) == multiset(s)
  {
  }

  lemma SwapKeys<S>(mem: map<int, Node<S>>, s: seq<int>, i: int, j: int)
    requires 0 <= i < |s| && 0 <= j < |s| && Held(mem, s)
    ensures Held(mem, Swap(s, i, j)) && Keys(mem, Swap(s, i, j)) == Swap(Keys(mem, s), i, j)
  {
  }

  /** One swap of sift-up moves the misplaced key to slot `k`, the parent of `i`. */
  lemma SiftUpStep(ks: seq<int>, i: int, k: int, k2: int)
    requires 0 <= k < i < |ks| && Branch(k, i) && HeapUpTo(ks, i, k) && ks[i] < ks[k]
    requires k > 0 ==> 0 <= k2 && Branch(k2, k)
    ensures HeapUpTo(Swap(ks, i, k), k, k2)
  {
    var r := Swap(ks, i, k);
    forall j | 0 <= j < |r| && (k > 0 ==> j != k2) ensures Tops(r, j) {
      if j != k {
        assert Tops(ks, j);
      }
    }
    if k > 0 {
      assert Tops(ks, k2);
    }
  }

  lemma SiftUpDone(ks: seq<int>, i: int, k: int)
    requires 0 <= i < |ks| && (i > 0 ==> 0 <= k < i && Branch(k, i) && ks[k] <= ks[i])
    requires HeapUpTo(ks, i, k)
    ensures IsHeap(ks)
  {
  }

  /** Moves the last element up to its place. */
  method PushHeap<S>(mem: map<int, Node<S>>, s: seq<int>) returns (r: seq<int>)
    requires |s| > 0 && Held(mem, s) && IsHeap(Keys(mem, s[..|s| - 1]))
    ensures multiset(r) == multiset(s) && Held(mem, r) && IsHeap(Keys(mem, r))
  {
    r := s;
    var i := |s| - 1;
    assert HeapUpTo(Keys(mem, r), i, (i - 1) / 2) by { AppendedKey(mem, s); }
    while i > 0 && mem[r[i]].f < mem[r[(i - 1) / 2]].f
      invariant 0 <= i < |r| && multiset(r) == multiset(s) && Held(mem, r)
      invariant HeapUpTo(Keys(mem, r), i, (i - 1) / 2)
    {
      hide HeapUpTo, Swap;
      var k := (i - 1) / 2;
      SwapPermutes(r, i, k);
      SwapKeys(mem, r, i, k);
      SiftUpStep(Keys(mem, r), i, k, (k - 1) / 2);
      r, i := Swap(r, i, k), k;
    }
    SiftUpDone(Keys(mem, r), i, (i - 1) / 2);
  }

  lemma AppendedKey<S>(mem: map<int, Node<S>>, s: seq<int>)
    requires |s| > 0 && Held(mem, s) && IsHeap(Keys(mem, s[..|s| - 1]))
    ensures HeapUpTo(Keys(mem, s), |s| - 1, (|s| - 2) / 2)
  {
    var ks, n := Keys(mem, s), |s| - 1;
    var init := Keys(mem, s[..n]);
    assert forall i :: 0 <= i < n ==> init[i] == ks[i];
    forall j | 0 <= j < |ks| && (n > 0 ==> j != (n - 1) / 2) ensures Tops(ks, j) {
      if j < n { assert Tops(init, j); }
    }
    if n > 0 {
      assert Tops(init, (n - 1) / 2);
    }
  }

  lemma SiftDownBegins(ks: seq<int>, at: nat)
    requires at < |ks| && HeapFrom(ks, at + 1)
    ensures HeapDownFrom(ks, at, at)
  {
  }

  lemma SiftDownStep(ks: seq<int>, at: int, i: int, c: int)
    requires 0 <= at <= i < c < |ks| && Branch(i, c) && HeapDownFrom(ks, at, i) && ks[c] < ks[i]
    requires ks[c] <= ks[2 * i + 1] && (2 * i + 2 < |ks| ==> ks[c] <= ks[2 * i + 2])
    ensures HeapDownFrom(Swap(ks, i, c), at, c)
  {
    var r := Swap(ks, i, c);
    forall j | at <= j < |r| && j != c ensures Tops(r, j) {
      if j != i {
        assert Tops(ks, j);
      }
    }
    assert Tops(ks, c);
  }

  /** Moves element `at` down until the part of the heap rooted there is ordered. */
  method SiftDown<S>(mem: map<int, Node<S>>, s: seq<int>, at: nat) returns (r: seq<int>)
    requires Held(mem, s) && at < |s| && HeapFrom(Keys(mem, s), at + 1)
    ensures multiset(r) == multiset(s) && |r| == |s| && Held(mem, r) && HeapFrom(Keys(mem, r), at)
  {
    hide HeapDownFrom, HeapFrom, Swap;
    SiftDownBegins(Keys(mem, s), at);
    r := s;
    var i := at;
    while 2 * i + 1 < |r|
      invariant at <= i < |r| == |s| && multiset(r) == multiset(s) && Held(mem, r)
      invariant HeapDownFrom(Keys(mem, r), at, i)
      decreases |r| - i
    {
      var c := 2 * i + 1;
      if c + 1 < |r| && mem[r[c + 1]].f < mem[r[c]].f {
        c := c + 1;
      }
      if mem[r[i]].f <= mem[r[c]].f {
        SiftDownDone(Keys(mem, r), at, i);
        return;
      }
      SwapPermutes(r, i, c);
      SwapKeys(mem, r, i, c);
      SiftDownStep(Keys(mem, r), at, i, c);
      r, i := Swap(r, i, c), c;
    }
    SiftDownDone(Keys(mem, r), at, i);
  }

  lemma SiftDownDone(ks: seq<int>, at: int, i: int)
    requires 0 <= at <= i < |ks| && HeapDownFrom(ks, at, i)
    requires Tops(ks, i)
    ensures HeapFrom(ks, at)
  {
  }

  /** Removes the least element. */
  method PopHeap<S>(mem: map<int, Node<S>>, s: seq<int>) returns (top: int, r: seq<int>)
    requires |s| > 0 && Held(mem, s) && IsHeap(Keys(mem, s))
    ensures top in s && top in mem && forall a :: a in s ==> a in mem && mem[top].f <= mem[a].f
    ensures multiset(r) == multiset(s) - multiset{top}
    ensures Held(mem, r) && IsHeap(Keys(mem, r))
  {
    top := s[0];
    var n := |s| - 1;
    FrontLeast(mem, s);
    if n == 0 {
      assert s == [top];
      r := [];
    } else {
      var t := [s[n]] + s[1..n];
      assert s == [top] + s[1..n] + [s[n]];
      FrontReplaced(mem, s);
      r := SiftDown(mem, t, 0);
    }
  }

  lemma FrontLeast<S>(mem: map<int, Node<S>>, s: seq<int>)
    requires |s| > 0 && Held(mem, s) && IsHeap(Keys(mem, s))
    ensures forall a :: a in s ==> a in mem && mem[s[0]].f <= mem[a].f
  {
    forall a | a in s ensures a in mem && mem[s[0]].f <= mem[a].f {
      var j :| 0 <= j < |s| && s[j] == a;
      FrontIsLeast(Keys(mem, s), j);
    }
  }

  lemma FrontReplaced<S>(mem: map<int, Node<S>>, s: seq<int>)
    requires |s| > 1 && Held(mem, s) && IsHeap(Keys(mem, s))
    ensures var t := [s[|s| - 1]] + s[1..|s| - 1];
      Held(mem, t) && HeapFrom(Keys(mem, t), 1)
  {
    var t := [s[|s| - 1]] + s[1..|s| - 1];
    assert forall i :: 1 <= i < |t| ==> t[i] == s[i];
    forall i | 1 <= i < |t| ensures Tops(Keys(mem, t), i) {
      assert Tops(Keys(mem, s), i);
    }
  }

  /** Rebuilds the heap after an element in the middle has changed. */
  method MakeHeap<S>(mem: map<int, Node<S>>, s: seq<int>) returns (r: seq<int>)
    requires Held(mem, s)
    ensures multiset(r) == multiset(s) && Held(mem, r) && IsHeap(Keys(mem, r))
  {
    r := s;
    var i := |s| / 2;
    while i > 0
      invariant 0 <= i <= |r| == |s| && multiset(r) == multiset(s) && Held(mem, r)
      invariant HeapFrom(Keys(mem, r), i)
    {
      i := i - 1;
      r := SiftDown(mem, r, i);
    }
  }
}
