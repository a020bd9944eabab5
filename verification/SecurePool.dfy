/** A pool of integer handles whose upper bits count how often the base integer has been recycled. The handle
    type has `base * guards` values: the base integer is below `base` and the guard part below `guards`. */
module SecurePool {

  // ---- Handles ----

  function Unguard(base: nat, h: nat): nat
    requires base > 0
  {
    h % base
  }

  function GuardValue(base: nat, h: nat): nat
    requires base > 0
  {
    h / base
  }

  /** The base integer joined with its counter, which is shifted up and loses what does not fit. */
  function Handle(base: nat, guards: nat, u: nat, count: nat): nat
    requires base > 0 && guards > 0
  {
    u + (count % guards) * base
  }

  lemma Parts(base: nat, u: nat, q: nat)
    requires u < base
    ensures (u + q * base) % base == u && (u + q * base) / base == q
  {
    var h := u + q * base;
    var z, m := h / base, h % base;
    assert h == base * z + m && 0 <= m < base;
    assert (q - z) * base == m - u;
    assert q - z >= 1 ==> (q - z) * base >= base;
    assert q - z <= -1 ==> (q - z) * base + base <= 0;
  }

  /** A handle names its base integer, and its guard part is the full counter exactly as long as the counter has
      not outgrown the guard bits. */
  lemma HandleParts(base: nat, guards: nat, u: nat, count: nat)
    requires u < base && guards > 0
    ensures Unguard(base, Handle(base, guards, u, count)) == u
    ensures GuardValue(base, Handle(base, guards, u, count)) == count <==> count < guards
  {
    Parts(base, u, count % guards);
    hide Handle;
    assert count < guards ==> count % guards == count;
  }

  /** Base integer and guard part determine the handle. */
  lemma SameParts(base: nat, h: nat, k: nat)
    requires base > 0 && Unguard(base, h) == Unguard(base, k) && GuardValue(base, h) == GuardValue(base, k)
    ensures h == k
  {
    assert h == base * (h / base) + h % base;
    assert k == base * (k / base) + k % base;
  }

  lemma HandleBelow(base: nat, guards: nat, u: nat, count: nat)
    requires u < base && guards > 0
    ensures Handle(base, guards, u, count) < base * guards
  {
    Scale(count % guards, guards, base);
  }

  /** A value of the handle type has a guard part below `guards`. */
  lemma GuardBelow(base: nat, guards: nat, h: nat)
    requires base > 0 && h < base * guards
    ensures GuardValue(base, h) < guards
  {
    var q := h / base;
    assert base * q <= h;
    assert q >= guards ==> base * q >= base * guards;
  }

  lemma Scale(c: nat, g: nat, b: nat)
    requires c < g
    ensures c * b + b <= b * g
  {
    assert (c + 1) * b <= g * b;
  }

  // ---- The pool ----

  /** `dense` lists every base integer once. */
  ghost predicate Permutation(dense: seq<nat>)
  {
    && (forall i :: 0 <= i < |dense| ==> dense[i] < |dense|)
    && (forall i, j :: 0 <= i < j < |dense| ==> dense[i] != dense[j])
  }

  /** The first `size` entries of `dense` are in use, and `sparse` finds them; what else `sparse` holds does not
      matter. */
  ghost predicate Linked(dense: seq<nat>, sparse: seq<nat>, size: nat)
  {
    && |dense| == |sparse| && size <= |dense| && Permutation(dense)
    && forall i :: 0 <= i < size ==> sparse[dense[i]] == i
  }

  predicate InUse(dense: seq<nat>, sparse: seq<nat>, size: nat, u: nat)
    requires |dense| == |sparse| && size <= |dense|
  {
    u < |sparse| && sparse[u] < size && dense[sparse[u]] == u
  }

  lemma InUseIff(dense: seq<nat>, sparse: seq<nat>, size: nat, u: nat)
    requires Linked(dense, sparse, size)
    ensures InUse(dense, sparse, size, u) <==> exists i :: 0 <= i < size && dense[i] == u
  {
  }

  /** The state after taking the next free integer. */
  lemma AcquireLinks(dense: seq<nat>, sparse: seq<nat>, size: nat)
    requires Linked(dense, sparse, size) && size < |dense|
    ensures Linked(dense, sparse[dense[size] := size], size + 1)
    ensures !InUse(dense, sparse, size, dense[size])
    ensures forall u :: InUse(dense, sparse[dense[size] := size], size + 1, u) <==>
                        InUse(dense, sparse, size, u) || u == dense[size]
  {
    InUseIff(dense, sparse, size, dense[size]);
    forall u
      ensures InUse(dense, sparse[dense[size] := size], size + 1, u) <==>
              InUse(dense, sparse, size, u) || u == dense[size]
    {
      InUseIff(dense, sparse, size, u);
      InUseIff(dense, sparse[dense[size] := size], size + 1, u);
      hide InUse;
      if exists i :: 0 <= i < size + 1 && dense[i] == u {
        var i :| 0 <= i < size + 1 && dense[i] == u;
        assert i < size || u == dense[size];
      }
    }
  }

  /** The state after giving integer `u` back: it trades places with the last one in use. */
  lemma ReleaseLinks(dense: seq<nat>, sparse: seq<nat>, size: nat, u: nat)
    requires Linked(dense, sparse, size) && InUse(dense, sparse, size, u)
    ensures var last := dense[size - 1]; var i := sparse[u];
      var d := dense[size - 1 := u][i := last]; var s := sparse[last := i];
      && Linked(d, s, size - 1)
      && forall w :: InUse(d, s, size - 1, w) <==> InUse(dense, sparse, size, w) && w != u
  {
    var last, i := dense[size - 1], sparse[u];
    var d, s := dense[size - 1 := u][i := last], sparse[last := i];
    SwapPermutes(dense, size - 1, i);
    assert Linked(d, s, size - 1);
    forall w ensures InUse(d, s, size - 1, w) <==> InUse(dense, sparse, size, w) && w != u {
      InUseIff(dense, sparse, size, w);
      InUseIff(d, s, size - 1, w);
      hide InUse;
      if exists j :: 0 <= j < size && dense[j] == w {
        var j :| 0 <= j < size && dense[j] == w;
        assert w != u ==> d[if j == size - 1 then i else j] == w;
      }
      if exists j :: 0 <= j < size - 1 && d[j] == w {
        var j :| 0 <= j < size - 1 && d[j] == w;
        assert dense[if j == i then size - 1 else j] == w;
      }
    }
  }

  lemma SwapPermutes(dense: seq<nat>, a: nat, b: nat)
    requires Permutation(dense) && a < |dense| && b < |dense|
    ensures Permutation(dense[a := dense[b]][b := dense[a]])
  {
  }

  /** Handle `h` is the one made for an integer in use, whose counter may have outgrown the guard bits. */
  ghost predicate HandedOut(base: nat, guards: nat, dense: seq<nat>, sparse: seq<nat>, guard: seq<nat>, size: nat,
      h: nat)
    requires base > 0 && guards > 0 && |dense| == |sparse| == |guard| && size <= |dense|
  {
    InUse(dense, sparse, size, Unguard(base, h)) && GuardValue(base, h) == guard[Unguard(base, h)] % guards
  }

  /** Handle `h` carries a counter that has since moved on. */
  ghost predicate Stale(base: nat, guard: seq<nat>, h: nat)
    requires base > 0
  {
    Unguard(base, h) < |guard| && GuardValue(base, h) < guard[Unguard(base, h)]
  }

  /** The handles handed out and not given back, and those given back, are exactly what the arrays say. */
  ghost predicate Books(base: nat, guards: nat, dense: seq<nat>, sparse: seq<nat>, guard: seq<nat>, size: nat,
                        live: set<nat>, retired: set<nat>)
    requires base > 0 && guards > 0 && |dense| == |sparse| == |guard| && size <= |dense|
  {
    && (forall h :: h in live <==> HandedOut(base, guards, dense, sparse, guard, size, h))
    && (forall h :: h in retired <==> Stale(base, guard, h))
  }

  lemma Wrapped(count: nat, guards: nat)
    requires guards > 0 && count <= guards
    ensures count % guards == if count < guards then count else 0
  {
  }

  /** A new handle has been given back before exactly when the counter of its integer is used up. */
  lemma AcquireBooks(base: nat, guards: nat, dense: seq<nat>, sparse: seq<nat>, guard: seq<nat>, size: nat,
                     live: set<nat>, retired: set<nat>)
    requires guards > 0 && |dense| == |guard| <= base && base > 0 && size < |dense|
    requires Linked(dense, sparse, size) && guard[dense[size]] <= guards
    requires Books(base, guards, dense, sparse, guard, size, live, retired)
    ensures var u := dense[size]; var h := Handle(base, guards, u, guard[u]);
      && Books(base, guards, dense, sparse[u := size], guard, size + 1, live + {h}, retired)
      && Unguard(base, h) == u && h !in live && (h in retired <==> guard[u] == guards)
  {
    var u := dense[size];
    var h := Handle(base, guards, u, guard[u]);
    Parts(base, u, guard[u] % guards);
    Wrapped(guard[u], guards);
    AcquireLinks(dense, sparse, size);
    hide InUse, Unguard, GuardValue, Linked;
    forall k ensures k in live + {h} <==> HandedOut(base, guards, dense, sparse[u := size], guard, size + 1, k) {
      assert k in live <==> HandedOut(base, guards, dense, sparse, guard, size, k);
      if Unguard(base, k) == u && GuardValue(base, k) == guard[u] % guards {
        SameParts(base, h, k);
      }
    }
    assert h in live <==> HandedOut(base, guards, dense, sparse, guard, size, h);
    assert h in retired <==> Stale(base, guard, h);
  }

  lemma ReleaseBooks(base: nat, guards: nat, dense: seq<nat>, sparse: seq<nat>, guard: seq<nat>, size: nat,
                     live: set<nat>, retired: set<nat>, h: nat)
    requires |dense| == |guard| <= base && base > 0 && guards > 0 && h in live
    requires Linked(dense, sparse, size) && Books(base, guards, dense, sparse, guard, size, live, retired)
    requires Unguard(base, h) < |guard| && guard[Unguard(base, h)] < guards
    ensures InUse(dense, sparse, size, Unguard(base, h))
    ensures var u := Unguard(base, h); var last := dense[size - 1]; var i := sparse[u];
      Books(base, guards, dense[size - 1 := u][i := last], sparse[last := i], guard[u := guard[u] + 1], size - 1,
            live - {h}, retired + {h})
  {
    assert HandedOut(base, guards, dense, sparse, guard, size, h);
    var u := Unguard(base, h);
    Wrapped(guard[u], guards);
    ReleaseLinks(dense, sparse, size, u);
    var last, i := dense[size - 1], sparse[u];
    var d, s, g := dense[size - 1 := u][i := last], sparse[last := i], guard[u := guard[u] + 1];
    assert forall w: nat :: InUse(dense, sparse, size, w) ==> w < |guard|;
    hide InUse, Unguard, GuardValue, Linked;
    forall k ensures k in live - {h} <==> HandedOut(base, guards, d, s, g, size - 1, k) {
      assert k in live <==> HandedOut(base, guards, dense, sparse, guard, size, k);
      if Unguard(base, k) == u && k in live {
        SameParts(base, h, k);
      }
    }
    forall k ensures k in retired + {h} <==> Stale(base, g, k) {
      assert k in retired <==> Stale(base, guard, k);
      if Unguard(base, k) == u && GuardValue(base, k) == guard[u] {
        SameParts(base, h, k);
      }
    }
  }

  class Pool {
    const base: nat
    const guards: nat
    const dense: array<nat>
    const sparse: array<nat>
    const guard: array<nat>
    var size: nat
    ghost var live: set<nat>
    ghost var retired: set<nat>

    ghost predicate Valid()
      reads this, dense, sparse, guard
    {
      && base > 0 && guards > 0 && dense.Length == sparse.Length == guard.Length <= base
      && dense != sparse && dense != guard && sparse != guard
      && Linked(dense[..], sparse[..], size)
      && (forall u :: 0 <= u < guard.Length ==> guard[u] <= guards)
      && Books(base, guards, dense[..], sparse[..], guard[..], size, live, retired)
    }

    /** A pool over arrays with arbitrary contents in `sparse`. */
    constructor (capacity: nat, handleBase: nat, guardCount: nat)
      requires 0 < capacity <= handleBase && guardCount > 0
      ensures Valid() && live == {} && retired == {} && dense.Length == capacity
      ensures fresh(dense) && fresh(sparse) && fresh(guard) && base == handleBase && guards == guardCount
    {
      base, guards := handleBase, guardCount;
      dense := new nat[capacity](i => i);
      sparse := new nat[capacity];
      guard := new nat[capacity](i => 0);
      size, live, retired := 0, {}, {};
    }

    /** The counter of the handle's integer still fits the guard bits. */
    ghost predicate Counted(h: nat)
      reads this, guard
    {
      base > 0 && Unguard(base, h) < guard.Length && guard[Unguard(base, h)] < guards
    }

    /** A handle is valid exactly while it is handed out and the counter of its integer has not been used up. */
    method IsValid(h: nat) returns (r: bool)
      requires Valid() && h < base * guards
      ensures r <==> h in live && Counted(h)
    {
      var u, g := Unguard(base, h), GuardValue(base, h);
      assert h in live <==> HandedOut(base, guards, dense[..], sparse[..], guard[..], size, h);
      GuardBelow(base, guards, h);
      if u < guard.Length {
        Wrapped(guard[u], guards);
      }
      r := u < dense.Length && sparse[u] < size && dense[sparse[u]] == u && g == guard[u];
    }

    /** Hands out a handle that is not handed out; it never was exactly as long as the counter fits. */
    method Acquire() returns (h: nat)
      requires Valid() && size + 1 < dense.Length
      modifies this, sparse
      ensures Valid() && live == old(live) + {h} && h !in old(live) && retired == old(retired)
      ensures h < base * guards && (Counted(h) <==> h !in retired)
      ensures h % base == dense[old(size)] && dense[old(size)] < guard.Length && h / base == guard[h % base] % guards
      ensures size == old(size) + 1
    {
      var index := size;
      var u := dense[index];
      AcquireLinks(dense[..], sparse[..], size);
      AcquireBooks(base, guards, dense[..], sparse[..], guard[..], size, live, retired);
      HandleBelow(base, guards, u, guard[u]);
      ghost var s := sparse[..];
      hide Books, Linked, Handle, InUse, Unguard;
      size := size + 1;
      sparse[u] := index;
      assert sparse[..] == s[u := index];
      h := Handle(base, guards, u, guard[u]);
      live := live + {h};
    }

    /** Takes a valid handle back; from now on it is stale. */
    method Release(h: nat)
      requires Valid() && h in live && Counted(h)
      modifies this, dense, sparse, guard
      ensures Valid() && live == old(live) - {h} && retired == old(retired) + {h}
      ensures h % base < guard.Length && guard[h % base] == old(guard[h % base]) + 1 && size == old(size) - 1
      ensures forall u :: 0 <= u < guard.Length && u != h % base ==> guard[u] == old(guard[u])
    {
      var u := Unguard(base, h);
      ghost var d, s, g := dense[..], sparse[..], guard[..];
      ReleaseBooks(base, guards, d, s, g, size, live, retired, h);
      ReleaseLinks(d, s, size, u);
      SmallModulo(d[size - 1], base);
      hide Books, Linked, Unguard;
      var index := sparse[u];
      size := size - 1;
      var temp: nat := dense[size] % base;
      dense[size] := u;
      sparse[temp] := index;
      dense[index] := temp;
      guard[u] := guard[u] + 1;
      live, retired := live - {h}, retired + {h};
      ghost var d': seq<nat> := d[size := u];
      assert dense[..] == d'[index := temp];
      assert sparse[..] == s[temp := index];
      assert guard[..] == g[u := g[u] + 1];
    }
  }

  lemma SmallModulo(x: nat, base: nat)
    requires x < base
    ensures x % base == x
  {
  }
}
