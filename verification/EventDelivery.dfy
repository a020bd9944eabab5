/** What delivering one event does: the queues, the handlers reached and the history, as values. */
module EventDelivery {
  import opened RankOrder

  type Handler = nat

  datatype Post<E> = Post(kind: nat, event: E)

  /** What one call of a handler does: it may change the world, consume the event and enqueue others. */
  datatype Reaction<W, E> = Reaction(world: W, consumed: bool, posts: seq<Post<E>>)

  type Behaviour<!W, !E> = (Handler, Post<E>, W) -> Reaction<W, E>

  datatype Subscription = Subscription(priority: nat, handler: Handler)

  /** The queue of one event type; `waiting` is oldest first, `delegates` lowest priority first. */
  datatype Slot<E> = Slot(kind: nat, delegates: seq<Subscription>, waiting: seq<E>)

  // ---- Handlers reached by one event ----

  datatype Outcome<W, E> = Outcome(world: W, posts: seq<Post<E>>, reached: nat)

  /** Calls the first `n` subscriptions, last one first, until one consumes the event. */
  ghost function Deliver<W, E>(react: Behaviour<W, E>, ds: seq<Subscription>, p: Post<E>, w: W): Outcome<W, E>
  {
    if ds == [] then Outcome(w, [], 0)
    else
      var r := react(ds[|ds| - 1].handler, p, w);
      if r.consumed then Outcome(r.world, r.posts, 1)
      else
        var rest := Deliver(react, ds[..|ds| - 1], p, r.world);
        Outcome(rest.world, r.posts + rest.posts, rest.reached + 1)
  }

  /** The `j`-th subscription in the order of calls. */
  ghost function FromTop(ds: seq<Subscription>, j: nat): Subscription
    requires j < |ds|
  {
    ds[|ds| - 1 - j]
  }

  /** The world in which the `j`-th handler from the top is called. */
  ghost function WorldAt<W, E>(react: Behaviour<W, E>, ds: seq<Subscription>, p: Post<E>, w: W, j: nat): W
    requires j <= |ds|
  {
    if j == 0 then w
    else
      var v := WorldAt(react, ds, p, w, j - 1);
      react(FromTop(ds, j - 1).handler, p, v).world
  }

  ghost predicate Consumes<W, E>(react: Behaviour<W, E>, ds: seq<Subscription>, p: Post<E>, w: W, j: nat)
    requires j < |ds|
  {
    react(FromTop(ds, j).handler, p, WorldAt(react, ds, p, w, j)).consumed
  }

  /** What the first `n` handlers from the top enqueue, one after the other. */
  ghost function PostsOf<W, E>(react: Behaviour<W, E>, ds: seq<Subscription>, p: Post<E>, w: W, n: nat): seq<Post<E>>
    requires n <= |ds|
  {
    if n == 0 then []
    else PostsOf(react, ds, p, w, n - 1) + react(FromTop(ds, n - 1).handler, p, WorldAt(react, ds, p, w, n - 1)).posts
  }

  lemma {:induction false} PostsShift<W, E>(react: Behaviour<W, E>, ds: seq<Subscription>, p: Post<E>, w: W, n: nat)
    requires 1 <= n <= |ds|
    ensures var r := react(ds[|ds| - 1].handler, p, w);
      PostsOf(react, ds, p, w, n) == r.posts + PostsOf(react, ds[..|ds| - 1], p, r.world, n - 1)
  {
    var r := react(ds[|ds| - 1].handler, p, w);
    if n == 1 {
      assert WorldAt(react, ds, p, w, 0) == w && PostsOf(react, ds, p, w, 0) == [];
    } else {
      PostsShift(react, ds, p, w, n - 1);
      WorldShift(react, ds, p, w, n - 1);
      assert FromTop(ds[..|ds| - 1], n - 2) == FromTop(ds, n - 1);
    }
  }

  lemma {:induction false} WorldShift<W, E>(react: Behaviour<W, E>, ds: seq<Subscription>, p: Post<E>, w: W, j: nat)
    requires 1 <= j <= |ds|
    ensures WorldAt(react, ds, p, w, j)
      == WorldAt(react, ds[..|ds| - 1], p, react(ds[|ds| - 1].handler, p, w).world, j - 1)
  {
    if j == 1 {
      assert WorldAt(react, ds, p, w, 0) == w;
    } else {
      WorldShift(react, ds, p, w, j - 1);
      assert ds[..|ds| - 1][|ds| - 1 - (j - 1)] == ds[|ds| - j];
    }
  }

  /** The event goes down the list of priorities and stops exactly at the first handler that consumes it; each handler
      finds the world as the one before left it, and their posts are enqueued in that order. */
  lemma {:induction false} ReachesFirstConsumer<W, E>(react: Behaviour<W, E>, ds: seq<Subscription>, p: Post<E>, w: W)
    ensures var o := Deliver(react, ds, p, w);
      && o.reached <= |ds|
      && o.world == WorldAt(react, ds, p, w, o.reached) && o.posts == PostsOf(react, ds, p, w, o.reached)
      && (forall j :: 0 <= j < o.reached - 1 ==> !Consumes(react, ds, p, w, j))
      && (o.reached < |ds| ==> o.reached > 0 && Consumes(react, ds, p, w, o.reached - 1))
    decreases |ds|
  {
    if ds != [] {
      var r := react(ds[|ds| - 1].handler, p, w);
      var o := Deliver(react, ds, p, w);
      assert WorldAt(react, ds, p, w, 0) == w;
      if r.consumed {
        assert WorldAt(react, ds, p, w, 1) == r.world;
        assert PostsOf(react, ds, p, w, 0) == [] && PostsOf(react, ds, p, w, 1) == r.posts;
      } else {
        var ds' := ds[..|ds| - 1];
        ReachesFirstConsumer(react, ds', p, r.world);
        WorldShift(react, ds, p, w, o.reached);
        PostsShift(react, ds, p, w, o.reached);
        forall j | 1 <= j < |ds|
          ensures Consumes(react, ds, p, w, j) == Consumes(react, ds', p, r.world, j - 1)
        {
          WorldShift(react, ds, p, w, j);
        }
      }
    }
  }

  // ---- Queues ----

  /** The position of the queue for `kind`, or the number of queues. */
  function IndexOf<E>(slots: seq<Slot<E>>, kind: nat): (i: nat)
    ensures i <= |slots|
    ensures i < |slots| ==> slots[i].kind == kind
    ensures forall j :: 0 <= j < i ==> slots[j].kind != kind
  {
    if slots == [] then 0
    else if slots[0].kind == kind then 0
    else
      var r := IndexOf(slots[1..], kind);
      assert forall j :: 1 <= j < |slots| ==> slots[j] == slots[1..][j - 1];
      r + 1
  }

  ghost predicate Ordered<E>(slots: seq<Slot<E>>)
  {
    forall i, j :: 0 <= i < j < |slots| ==> slots[i].kind < slots[j].kind
  }

  lemma IndexUnique<E>(slots: seq<Slot<E>>, i: nat)
    requires Ordered(slots) && i < |slots|
    ensures IndexOf(slots, slots[i].kind) == i
  {
  }

  /** The same event types with the same subscriptions; only the waiting events may differ. */
  ghost predicate SameShape<E>(a: seq<Slot<E>>, b: seq<Slot<E>>)
  {
    |a| == |b| && forall i :: 0 <= i < |a| ==> a[i].kind == b[i].kind && a[i].delegates == b[i].delegates
  }

  lemma SameIndex<E>(a: seq<Slot<E>>, b: seq<Slot<E>>, kind: nat)
    requires SameShape(a, b)
    ensures IndexOf(a, kind) == IndexOf(b, kind)
  {
  }

  ghost function WaitingOf<E>(slots: seq<Slot<E>>, kind: nat): seq<E>
  {
    var i := IndexOf(slots, kind);
    if i < |slots| then slots[i].waiting else []
  }

  function Refill<E>(slots: seq<Slot<E>>, i: nat, waiting: seq<E>): (r: seq<Slot<E>>)
    requires i < |slots|
    ensures SameShape(slots, r)
  {
    slots[i := slots[i].(waiting := waiting)]
  }

  lemma RefillWaiting<E>(slots: seq<Slot<E>>, i: nat, waiting: seq<E>, kind: nat)
    requires i < |slots| && IndexOf(slots, slots[i].kind) == i
    ensures WaitingOf(Refill(slots, i, waiting), kind) ==
      if kind == slots[i].kind then waiting else WaitingOf(slots, kind)
  {
    SameIndex(slots, Refill(slots, i, waiting), kind);
    hide IndexOf;
  }

  /** Enqueues an event; without a queue for its type nothing happens. */
  function Submit<E>(slots: seq<Slot<E>>, p: Post<E>): (r: seq<Slot<E>>)
    ensures SameShape(slots, r)
  {
    var i := IndexOf(slots, p.kind);
    if i < |slots| then Refill(slots, i, slots[i].waiting + [p.event]) else slots
  }

  lemma SubmitAppends<E>(slots: seq<Slot<E>>, p: Post<E>)
    ensures var at := IndexOf(slots, p.kind); at < |slots| ==>
      Submit(slots, p)[at].waiting == slots[at].waiting + [p.event]
    ensures IndexOf(slots, p.kind) == |slots| ==> Submit(slots, p) == slots
    ensures forall i :: 0 <= i < |slots| && slots[i].kind != p.kind ==> Submit(slots, p)[i] == slots[i]
  {
  }

  ghost function SubmitAll<E>(slots: seq<Slot<E>>, posts: seq<Post<E>>): (r: seq<Slot<E>>)
    ensures SameShape(slots, r)
  {
    if posts == [] then slots else Submit(SubmitAll(slots, posts[..|posts| - 1]), posts[|posts| - 1])
  }

  lemma {:induction false} SubmitJoin<E>(slots: seq<Slot<E>>, a: seq<Post<E>>, b: seq<Post<E>>)
    ensures SubmitAll(slots, a + b) == SubmitAll(SubmitAll(slots, a), b)
    decreases |b|
  {
    if b == [] {
      assert a + b == a;
    } else {
      assert (a + b)[..|a + b| - 1] == a + b[..|b| - 1];
      SubmitJoin(slots, a, b[..|b| - 1]);
    }
  }

  /** Enqueuing never disturbs the events already waiting. */
  lemma {:induction false} SubmitBehind<E>(slots: seq<Slot<E>>, posts: seq<Post<E>>, i: nat)
    requires i < |slots|
    ensures |SubmitAll(slots, posts)| == |slots| && slots[i].waiting <= SubmitAll(slots, posts)[i].waiting
  {
    if posts != [] {
      SubmitBehind(slots, posts[..|posts| - 1], i);
    }
  }

  // ---- History ----

  datatype Entry<E> =
    | Submitted(kind: nat, event: E)
    | Delivered(kind: nat, event: E, reached: nat)
    | Dropped(kind: nat)

  /** The events of one type accepted so far. */
  ghost function SubmittedOf<E>(log: seq<Entry<E>>, kind: nat): seq<E>
  {
    if log == [] then []
    else
      var before := SubmittedOf(log[..|log| - 1], kind);
      match log[|log| - 1]
      case Submitted(k, e) => if k == kind then before + [e] else before
      case _ => before
  }

  /** The events of one type that left the queue: delivered one by one, or all dropped. */
  ghost function SettledOf<E>(log: seq<Entry<E>>, kind: nat): seq<E>
  {
    if log == [] then []
    else
      var before := SettledOf(log[..|log| - 1], kind);
      match log[|log| - 1]
      case Submitted(_, _) => before
      case Delivered(k, e, _) => if k == kind then before + [e] else before
      case Dropped(k) => if k == kind then SubmittedOf(log[..|log| - 1], kind) else before
  }

  /** For every event type, what left the queue followed by what waits is what was accepted. */
  ghost predicate Balanced<E>(slots: seq<Slot<E>>, log: seq<Entry<E>>)
  {
    forall kind: nat :: SettledOf(log, kind) + WaitingOf(slots, kind) == SubmittedOf(log, kind)
  }

  ghost function Note<E>(slots: seq<Slot<E>>, log: seq<Entry<E>>, p: Post<E>): seq<Entry<E>>
  {
    if IndexOf(slots, p.kind) < |slots| then log + [Submitted(p.kind, p.event)] else log
  }

  ghost function NoteAll<E>(slots: seq<Slot<E>>, log: seq<Entry<E>>, posts: seq<Post<E>>): (r: seq<Entry<E>>)
    ensures log <= r
  {
    if posts == [] then log
    else Note(slots, NoteAll(slots, log, posts[..|posts| - 1]), posts[|posts| - 1])
  }

  lemma {:induction false} NoteJoin<E>(slots: seq<Slot<E>>, log: seq<Entry<E>>, a: seq<Post<E>>, b: seq<Post<E>>)
    ensures NoteAll(slots, log, a + b) == NoteAll(SubmitAll(slots, a), NoteAll(slots, log, a), b)
    decreases |b|
  {
    if b == [] {
      assert a + b == a;
    } else {
      assert (a + b)[..|a + b| - 1] == a + b[..|b| - 1];
      NoteJoin(slots, log, a, b[..|b| - 1]);
      SameIndex(slots, SubmitAll(slots, a), b[|b| - 1].kind);
    }
  }

  lemma LogStep<E>(log: seq<Entry<E>>, x: Entry<E>, kind: nat)
    ensures SubmittedOf(log + [x], kind) ==
      if x.Submitted? && x.kind == kind then SubmittedOf(log, kind) + [x.event] else SubmittedOf(log, kind)
    ensures SettledOf(log + [x], kind) ==
      if x.kind != kind || x.Submitted? then SettledOf(log, kind)
      else if x.Delivered? then SettledOf(log, kind) + [x.event] else SubmittedOf(log, kind)
  {
    assert (log + [x])[..|log + [x]| - 1] == log;
  }

  lemma SubmitBalances<E>(slots: seq<Slot<E>>, log: seq<Entry<E>>, p: Post<E>)
    requires Balanced(slots, log)
    ensures Balanced(Submit(slots, p), Note(slots, log, p))
  {
    var i := IndexOf(slots, p.kind);
    if i < |slots| {
      forall kind: nat
        ensures SettledOf(Note(slots, log, p), kind) + WaitingOf(Submit(slots, p), kind)
          == SubmittedOf(Note(slots, log, p), kind)
      {
        hide SettledOf, SubmittedOf, IndexOf, WaitingOf, Refill;
        LogStep(log, Submitted(p.kind, p.event), kind);
        RefillWaiting(slots, i, slots[i].waiting + [p.event], kind);
        WaitingAt(slots, i);
      }
    }
  }

  lemma WaitingAt<E>(slots: seq<Slot<E>>, i: nat)
    requires i < |slots| && IndexOf(slots, slots[i].kind) == i
    ensures WaitingOf(slots, slots[i].kind) == slots[i].waiting
  {
  }

  lemma {:induction false} SubmitAllBalances<E>(slots: seq<Slot<E>>, log: seq<Entry<E>>, posts: seq<Post<E>>)
    requires Balanced(slots, log)
    ensures Balanced(SubmitAll(slots, posts), NoteAll(slots, log, posts))
  {
    hide Balanced, Submit, IndexOf;
    if posts != [] {
      var most, last := posts[..|posts| - 1], posts[|posts| - 1];
      SubmitAllBalances(slots, log, most);
      SubmitBalances(SubmitAll(slots, most), NoteAll(slots, log, most), last);
      SameIndex(slots, SubmitAll(slots, most), last.kind);
    }
  }

  /** Takes the oldest event off a queue. */
  function PopAt<E>(slots: seq<Slot<E>>, i: nat): (r: seq<Slot<E>>)
    requires i < |slots| && slots[i].waiting != []
    ensures SameShape(slots, r)
  {
    Refill(slots, i, slots[i].waiting[1..])
  }

  lemma Regroup<E>(a: seq<E>, s: seq<E>)
    requires s != []
    ensures (a + [s[0]]) + s[1..] == a + s
  {
  }

  lemma PopBalances<E>(slots: seq<Slot<E>>, log: seq<Entry<E>>, i: nat, reached: nat)
    requires Balanced(slots, log) && Ordered(slots) && i < |slots| && slots[i].waiting != []
    ensures Balanced(PopAt(slots, i), log + [Delivered(slots[i].kind, slots[i].waiting[0], reached)])
  {
    hide SettledOf, SubmittedOf, IndexOf, WaitingOf, Refill, Ordered;
    var s := slots[i];
    var x := Delivered(s.kind, s.waiting[0], reached);
    IndexUnique(slots, i);
    WaitingAt(slots, i);
    forall kind: nat
      ensures SettledOf(log + [x], kind) + WaitingOf(PopAt(slots, i), kind) == SubmittedOf(log + [x], kind)
    {
      LogStep(log, x, kind);
      RefillWaiting(slots, i, s.waiting[1..], kind);
      Regroup(SettledOf(log, kind), s.waiting);
    }
  }

  lemma DropBalances<E>(slots: seq<Slot<E>>, log: seq<Entry<E>>, i: nat)
    requires Balanced(slots, log) && Ordered(slots) && i < |slots|
    ensures Balanced(Refill(slots, i, []), log + [Dropped(slots[i].kind)])
  {
    IndexUnique(slots, i);
    forall kind: nat
      ensures SettledOf(log + [Dropped(slots[i].kind)], kind) + WaitingOf(Refill(slots, i, []), kind)
        == SubmittedOf(log + [Dropped(slots[i].kind)], kind)
    {
      hide SettledOf, SubmittedOf, IndexOf, WaitingOf, Refill;
      LogStep(log, Dropped(slots[i].kind), kind);
      RefillWaiting(slots, i, [], kind);
    }
  }

  // ---- Ranks of the waiting events ----

  type Rank<!E> = Post<E> -> nat

  ghost function RanksIn<E>(rank: Rank<E>, kind: nat, waiting: seq<E>): multiset<nat>
  {
    if waiting == [] then multiset{} else multiset{rank(Post(kind, waiting[0]))} + RanksIn(rank, kind, waiting[1..])
  }

  ghost function RanksOf<E>(rank: Rank<E>, slots: seq<Slot<E>>): multiset<nat>
  {
    if slots == [] then multiset{} else RanksIn(rank, slots[0].kind, slots[0].waiting) + RanksOf(rank, slots[1..])
  }

  lemma {:induction false} RanksAppend<E>(rank: Rank<E>, kind: nat, waiting: seq<E>, e: E)
    ensures RanksIn(rank, kind, waiting + [e]) == RanksIn(rank, kind, waiting) + multiset{rank(Post(kind, e))}
  {
    if waiting != [] {
      assert (waiting + [e])[1..] == waiting[1..] + [e];
      RanksAppend(rank, kind, waiting[1..], e);
    }
  }

  lemma SwapBags(p: multiset<nat>, a: multiset<nat>, x: multiset<nat>, b: multiset<nat>, y: multiset<nat>)
    requires a + x == b + y
    ensures (p + a) + x == (p + b) + y
  {
    assert (p + a) + x == p + (a + x) && (p + b) + y == p + (b + y);
  }

  lemma CancelBag(a: multiset<nat>, x: multiset<nat>, b: multiset<nat>, y: multiset<nat>)
    requires a + x == b + (x + y)
    ensures a == b + y
  {
    assert b + (x + y) == (b + y) + x;
    assert (a + x) - x == a && ((b + y) + x) - x == b + y;
  }

  lemma ExchangeBags(a: multiset<nat>, b: multiset<nat>, r: multiset<nat>)
    ensures (a + r) + b == (b + r) + a
  {
  }

  lemma {:induction false} RanksRefill<E>(rank: Rank<E>, slots: seq<Slot<E>>, i: nat, waiting: seq<E>)
    requires i < |slots|
    ensures RanksOf(rank, Refill(slots, i, waiting)) + RanksIn(rank, slots[i].kind, slots[i].waiting)
         == RanksOf(rank, slots) + RanksIn(rank, slots[i].kind, waiting)
    decreases i
  {
    var next := Refill(slots, i, waiting);
    var head, tail := RanksIn(rank, slots[0].kind, slots[0].waiting), RanksOf(rank, slots[1..]);
    hide RanksIn;
    if i == 0 {
      assert next[1..] == slots[1..];
      ExchangeBags(RanksIn(rank, slots[0].kind, waiting), head, tail);
    } else {
      assert next[1..] == Refill(slots[1..], i - 1, waiting);
      RanksRefill(rank, slots[1..], i - 1, waiting);
      SwapBags(head, RanksOf(rank, next[1..]), RanksIn(rank, slots[i].kind, slots[i].waiting), tail,
          RanksIn(rank, slots[i].kind, waiting));
    }
  }

  /** Handlers only enqueue events ranked below the one they handle. */
  ghost predicate Lowers<W(!new), E(!new)>(react: Behaviour<W, E>, rank: Rank<E>)
  {
    forall h: Handler, p: Post<E>, w: W :: AllBelow(rank, react(h, p, w).posts, rank(p))
  }

  ghost predicate AllBelow<E>(rank: Rank<E>, posts: seq<Post<E>>, r: nat)
  {
    forall j :: 0 <= j < |posts| ==> rank(posts[j]) < r
  }

  lemma {:induction false} DeliverLowers<W(!new), E(!new)>(react: Behaviour<W, E>, rank: Rank<E>,
      ds: seq<Subscription>, p: Post<E>, w: W)
    requires Lowers(react, rank)
    ensures AllBelow(rank, Deliver(react, ds, p, w).posts, rank(p))
    decreases |ds|
  {
    if ds != [] {
      var r := react(ds[|ds| - 1].handler, p, w);
      assert AllBelow(rank, r.posts, rank(p));
      DeliverLowers(react, rank, ds[..|ds| - 1], p, r.world);
    }
  }

  /** Enqueuing adds ranks below `r` and removes none. */
  lemma {:induction false} SubmitAllRanks<E>(rank: Rank<E>, slots: seq<Slot<E>>, posts: seq<Post<E>>, r: nat)
      returns (more: multiset<nat>)
    requires AllBelow(rank, posts, r)
    ensures forall x: nat :: x in more ==> x < r
    ensures RanksOf(rank, SubmitAll(slots, posts)) == RanksOf(rank, slots) + more
  {
    if posts == [] {
      more := multiset{};
    } else {
      var most, last := posts[..|posts| - 1], posts[|posts| - 1];
      more := SubmitAllRanks(rank, slots, most, r);
      var now := SubmitAll(slots, most);
      var i := IndexOf(now, last.kind);
      if i < |now| {
        RanksRefill(rank, now, i, now[i].waiting + [last.event]);
        RanksAppend(rank, last.kind, now[i].waiting, last.event);
        CancelBag(RanksOf(rank, Submit(now, last)), RanksIn(rank, last.kind, now[i].waiting), RanksOf(rank, now),
            multiset{rank(last)});
        more := more + multiset{rank(last)};
      }
    }
  }

  lemma {:induction false} FrontRank<E>(rank: Rank<E>, slots: seq<Slot<E>>, i: nat)
    requires i < |slots| && slots[i].waiting != []
    ensures rank(Post(slots[i].kind, slots[i].waiting[0])) in RanksOf(rank, slots)
    decreases i
  {
    if i > 0 {
      assert slots[1..][i - 1] == slots[i];
      FrontRank(rank, slots[1..], i - 1);
    }
  }

  lemma ReplaceBag(next: multiset<nat>, rest: multiset<nat>, r: nat, mid: multiset<nat>, was: multiset<nat>,
      more: multiset<nat>)
    requires next + (multiset{r} + rest) == mid + rest && mid == was + more && r in was
    ensures next == was - multiset{r} + more
  {
    assert (next + multiset{r}) + rest == mid + rest;
    assert ((next + multiset{r}) + rest) - rest == next + multiset{r} && (mid + rest) - rest == mid;
  }

  ghost predicate Below(bag: multiset<nat>, top: nat)
  {
    forall x: nat :: x in bag ==> x < top
  }

  /** Delivering the front event of a queue and taking it off goes down in the order of the ranks. */
  lemma DeliveryDescends<W(!new), E(!new)>(react: Behaviour<W, E>, rank: Rank<E>, slots: seq<Slot<E>>, i: nat, w: W,
      top: nat, mid: seq<Slot<E>>)
    requires Lowers(react, rank) && Below(RanksOf(rank, slots), top)
    requires i < |slots| && slots[i].waiting != []
    requires var p := Post(slots[i].kind, slots[i].waiting[0]);
      mid == SubmitAll(slots, Deliver(react, slots[i].delegates, p, w).posts)
    ensures mid[i].waiting != [] && mid[i].waiting[0] == slots[i].waiting[0]
    ensures Below(RanksOf(rank, PopAt(mid, i)), top)
    ensures LexLess(Counts(RanksOf(rank, PopAt(mid, i)), top), Counts(RanksOf(rank, slots), top))
  {
    hide Lowers, Deliver, SubmitAll, RanksOf, RanksIn, LexLess, Counts, AllBelow;
    var p := Post(slots[i].kind, slots[i].waiting[0]);
    var posts := Deliver(react, slots[i].delegates, p, w).posts;
    DeliverLowers(react, rank, slots[i].delegates, p, w);
    var more := SubmitAllRanks(rank, slots, posts, rank(p));
    SubmitBehind(slots, posts, i);
    var rest := mid[i].waiting[1..];
    RanksRefill(rank, mid, i, rest);
    RanksFront(rank, p.kind, mid[i].waiting);
    FrontRank(rank, slots, i);
    var was, next := RanksOf(rank, slots), RanksOf(rank, PopAt(mid, i));
    ReplaceBag(next, RanksIn(rank, p.kind, rest), rank(p), RanksOf(rank, mid), was, more);
    ReplaceByLower(was, rank(p), more, top);
  }

  lemma RanksFront<E>(rank: Rank<E>, kind: nat, waiting: seq<E>)
    requires waiting != []
    ensures RanksIn(rank, kind, waiting) == multiset{rank(Post(kind, waiting[0]))} + RanksIn(rank, kind, waiting[1..])
  {
  }

  // ---- Runs of deliveries ----

  /** The state of the bus as the front event of queue `i` is about to be delivered. */
  datatype Moment<W, E> = Moment(slots: seq<Slot<E>>, world: W, i: nat)

  ghost predicate Ready<W, E>(m: Moment<W, E>) { m.i < |m.slots| && m.slots[m.i].waiting != [] }

  ghost function Effect<W, E>(react: Behaviour<W, E>, m: Moment<W, E>): Outcome<W, E>
    requires Ready(m)
  {
    var s := m.slots[m.i];
    Deliver(react, s.delegates, Post(s.kind, s.waiting[0]), m.world)
  }

  /** The queues and the world after that delivery. */
  ghost function After<W, E>(react: Behaviour<W, E>, m: Moment<W, E>): (seq<Slot<E>>, W)
    requires Ready(m)
  {
    var o := Effect(react, m);
    SubmitBehind(m.slots, o.posts, m.i);
    (PopAt(SubmitAll(m.slots, o.posts), m.i), o.world)
  }

  /** `run` lists the deliveries that lead from one state to another. */
  ghost predicate Leads<W, E>(react: Behaviour<W, E>, run: seq<Moment<W, E>>,
                              slots: seq<Slot<E>>, world: W, slots': seq<Slot<E>>, world': W)
  {
    if run == [] then slots == slots' && world == world'
    else
      var last := run[|run| - 1];
      && Ready(last) && After(react, last) == (slots', world')
      && Leads(react, run[..|run| - 1], slots, world, last.slots, last.world)
  }

  lemma {:induction false} LeadsJoin<W, E>(react: Behaviour<W, E>, a: seq<Moment<W, E>>, b: seq<Moment<W, E>>,
      s0: seq<Slot<E>>, w0: W, s1: seq<Slot<E>>, w1: W, s2: seq<Slot<E>>, w2: W)
    requires Leads(react, a, s0, w0, s1, w1) && Leads(react, b, s1, w1, s2, w2)
    ensures Leads(react, a + b, s0, w0, s2, w2)
    decreases |b|
  {
    hide After;
    if b == [] {
      assert a + b == a;
    } else {
      var last := b[|b| - 1];
      assert (a + b)[..|a + b| - 1] == a + b[..|b| - 1];
      LeadsJoin(react, a, b[..|b| - 1], s0, w0, s1, w1, last.slots, last.world);
    }
  }

  /** A run begins where it starts. */
  lemma {:induction false} LeadsFrom<W, E>(react: Behaviour<W, E>, run: seq<Moment<W, E>>,
      s0: seq<Slot<E>>, w0: W, s1: seq<Slot<E>>, w1: W)
    requires Leads(react, run, s0, w0, s1, w1) && run != []
    ensures run[0].slots == s0 && run[0].world == w0
    decreases |run|
  {
    hide After;
    if |run| > 1 {
      var last := run[|run| - 1];
      LeadsFrom(react, run[..|run| - 1], s0, w0, last.slots, last.world);
    }
  }

  // ---- How much is left ----

  ghost function TotalWaiting<E>(slots: seq<Slot<E>>): nat
  {
    if slots == [] then 0 else TotalWaiting(slots[..|slots| - 1]) + |slots[|slots| - 1].waiting|
  }

  lemma {:induction false} TotalRefill<E>(slots: seq<Slot<E>>, i: nat, waiting: seq<E>)
    requires i < |slots|
    ensures TotalWaiting(Refill(slots, i, waiting)) == TotalWaiting(slots) - |slots[i].waiting| + |waiting|
    decreases |slots|
  {
    var next := Refill(slots, i, waiting);
    var most := slots[..|slots| - 1];
    if i == |slots| - 1 {
      assert next[..i] == most;
    } else {
      assert next[..|slots| - 1] == Refill(most, i, waiting);
      TotalRefill(most, i, waiting);
    }
  }

  /** How many of the posts have a queue to go to. */
  ghost function Accepted<E>(slots: seq<Slot<E>>, posts: seq<Post<E>>): nat
  {
    if posts == [] then 0
    else Accepted(slots, posts[..|posts| - 1]) + if IndexOf(slots, posts[|posts| - 1].kind) < |slots| then 1 else 0
  }

  lemma {:induction false} TotalSubmitAll<E>(slots: seq<Slot<E>>, posts: seq<Post<E>>)
    ensures TotalWaiting(SubmitAll(slots, posts)) == TotalWaiting(slots) + Accepted(slots, posts)
  {
    if posts != [] {
      var most, last := posts[..|posts| - 1], posts[|posts| - 1];
      TotalSubmitAll(slots, most);
      var now := SubmitAll(slots, most);
      SameIndex(slots, now, last.kind);
      var i := IndexOf(now, last.kind);
      if i < |now| {
        TotalRefill(now, i, now[i].waiting + [last.event]);
      }
    }
  }

  /** A delivery takes one event away and adds what its handlers post. */
  lemma LeftAfter<W, E>(react: Behaviour<W, E>, m: Moment<W, E>)
    requires Ready(m)
    ensures TotalWaiting(After(react, m).0) == TotalWaiting(m.slots) - 1 + Accepted(m.slots, Effect(react, m).posts)
  {
    hide Deliver, TotalWaiting, Accepted, SubmitAll;
    var posts := Effect(react, m).posts;
    var mid := SubmitAll(m.slots, posts);
    SubmitBehind(m.slots, posts, m.i);
    TotalSubmitAll(m.slots, posts);
    TotalRefill(mid, m.i, mid[m.i].waiting[1..]);
  }

  ghost function EventsFor<E>(posts: seq<Post<E>>, kind: nat): seq<E>
  {
    if posts == [] then []
    else
      var before := EventsFor(posts[..|posts| - 1], kind);
      if posts[|posts| - 1].kind == kind then before + [posts[|posts| - 1].event] else before
  }

  lemma {:induction false} QueueAfterPosts<E>(slots: seq<Slot<E>>, posts: seq<Post<E>>, i: nat)
    requires i < |slots| && IndexOf(slots, slots[i].kind) == i
    ensures SubmitAll(slots, posts)[i].waiting == slots[i].waiting + EventsFor(posts, slots[i].kind)
  {
    if posts != [] {
      var most, last := posts[..|posts| - 1], posts[|posts| - 1];
      QueueAfterPosts(slots, most, i);
      SameIndex(slots, SubmitAll(slots, most), slots[i].kind);
      hide IndexOf, EventsFor;
      EventsForLast(posts, slots[i].kind);
    }
  }

  lemma EventsForLast<E>(posts: seq<Post<E>>, kind: nat)
    requires posts != []
    ensures var last := posts[|posts| - 1];
      EventsFor(posts, kind) == EventsFor(posts[..|posts| - 1], kind) + (if last.kind == kind then [last.event] else [])
  {
  }

  /** The delivery of the only event of its queue, whose handlers enqueue none of its type. */
  ghost predicate LastOfQueue<W, E>(react: Behaviour<W, E>, m: Moment<W, E>)
    requires Ready(m)
  {
    |m.slots[m.i].waiting| == 1 && EventsFor(Effect(react, m).posts, m.slots[m.i].kind) == []
  }

  lemma QueueLeft<W, E>(react: Behaviour<W, E>, m: Moment<W, E>)
    requires Ready(m) && Ordered(m.slots)
    ensures After(react, m).0[m.i].waiting == [] <==> LastOfQueue(react, m)
  {
    hide Effect, SubmitAll, EventsFor;
    IndexUnique(m.slots, m.i);
    QueueAfterPosts(m.slots, Effect(react, m).posts, m.i);
  }
}
