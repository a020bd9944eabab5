/** The event bus: subscriptions, deferred events and dispatch with an optional timeout. */
module EventBuses {
  import opened RankOrder
  import opened EventDelivery

  /** When a dispatch has to stop. */
  datatype Deadline = Never | At(time: int) {
    predicate PassedAt(now: int) { At? && now > time }
  }

  /** Subscriptions in ascending priority, each handler once. */
  ghost predicate Listed(ds: seq<Subscription>)
  {
    forall i, j :: 0 <= i < j < |ds| ==> ds[i].priority <= ds[j].priority && ds[i].handler != ds[j].handler
  }

  ghost predicate AllListed<E>(slots: seq<Slot<E>>)
  {
    forall i :: 0 <= i < |slots| ==> Listed(slots[i].delegates)
  }

  ghost predicate AllEmpty<E>(slots: seq<Slot<E>>)
  {
    forall i :: 0 <= i < |slots| ==> slots[i].waiting == []
  }

  ghost function SubscribersOf<E>(slots: seq<Slot<E>>, kind: nat): seq<Subscription>
  {
    var i := IndexOf(slots, kind);
    if i < |slots| then slots[i].delegates else []
  }

  /** A type without a queue and one with an idle queue nobody listens to are alike. */
  ghost predicate SameQueue<E>(a: seq<Slot<E>>, b: seq<Slot<E>>, kind: nat)
  {
    WaitingOf(a, kind) == WaitingOf(b, kind) && SubscribersOf(a, kind) == SubscribersOf(b, kind)
  }

  ghost predicate Listens(ds: seq<Subscription>, handler: Handler)
  {
    exists i :: 0 <= i < |ds| && ds[i].handler == handler
  }

  function Without(ds: seq<Subscription>, j: nat): (r: seq<Subscription>)
    requires j < |ds|
    ensures Listed(ds) ==> Listed(r)
  {
    ds[..j] + ds[j + 1..]
  }

  method Position(ds: seq<Subscription>, handler: Handler) returns (at: nat)
    ensures at <= |ds| && (at < |ds| ==> ds[at].handler == handler)
    ensures at < |ds| <==> Listens(ds, handler)
  {
    at := 0;
    while at < |ds| && ds[at].handler != handler
      invariant at <= |ds| && forall j :: 0 <= j < at ==> ds[j].handler != handler
    {
      at := at + 1;
    }
  }

  /** Appends a subscription and sorts; the order of equal priorities is one of those a sort may choose. */
  method Insert(ds: seq<Subscription>, d: Subscription) returns (r: seq<Subscription>)
    requires Listed(ds) && !Listens(ds, d.handler)
    ensures Listed(r) && multiset(r) == multiset(ds + [d])
  {
    hide Listed, Listens;
    var i := |ds|;
    while i > 0 && ds[i - 1].priority > d.priority
      invariant 0 <= i <= |ds|
      invariant forall j :: i <= j < |ds| ==> ds[j].priority > d.priority
    {
      i := i - 1;
    }
    r := ds[..i] + [d] + ds[i..];
    InsertAscends(ds, d, i);
    InsertCounts(ds, d, i);
  }

  lemma InsertAscends(ds: seq<Subscription>, d: Subscription, i: nat)
    requires Listed(ds) && !Listens(ds, d.handler)
    requires i <= |ds| && (i > 0 ==> ds[i - 1].priority <= d.priority)
    requires forall j :: i <= j < |ds| ==> ds[j].priority > d.priority
    ensures Listed(ds[..i] + [d] + ds[i..])
  {
    var r := ds[..i] + [d] + ds[i..];
    forall a, b | 0 <= a < b < |r|
      ensures r[a].priority <= r[b].priority && r[a].handler != r[b].handler
    {
      assert a < i ==> r[a] == ds[a];
      assert b > i ==> r[b] == ds[b - 1];
      assert b < i ==> r[b] == ds[b];
      assert a > i ==> r[a] == ds[a - 1];
    }
  }

  lemma InsertCounts(ds: seq<Subscription>, d: Subscription, i: nat)
    requires i <= |ds|
    ensures multiset(ds[..i] + [d] + ds[i..]) == multiset(ds + [d])
  {
    assert ds == ds[..i] + ds[i..];
  }

  lemma SameAsItself<E>(slots: seq<Slot<E>>, kind: nat)
    ensures SameQueue(slots, slots, kind)
  {
  }

  lemma AscendingAt<E>(slots: seq<Slot<E>>, i: nat)
    requires AllListed(slots) && i < |slots|
    ensures Listed(slots[i].delegates)
  {
  }

  lemma FoundAt<E>(slots: seq<Slot<E>>, i: nat, kind: nat)
    requires Ordered(slots) && i < |slots| && slots[i].kind == kind
    ensures WaitingOf(slots, kind) == slots[i].waiting && SubscribersOf(slots, kind) == slots[i].delegates
  {
    IndexUnique(slots, i);
  }

  lemma Missing<E>(slots: seq<Slot<E>>, kind: nat)
    requires forall i :: 0 <= i < |slots| ==> slots[i].kind != kind
    ensures WaitingOf(slots, kind) == [] && SubscribersOf(slots, kind) == []
  {
  }

  lemma CreateKeeps<E>(slots: seq<Slot<E>>, i: nat, kind: nat, next: seq<Slot<E>>, k: nat)
    requires Ordered(slots) && Ordered(next) && i <= |slots| && next == slots[..i] + [Slot(kind, [], [])] + slots[i..]
    ensures SameQueue(slots, next, k)
  {
    hide WaitingOf, SubscribersOf;
    if k == kind {
      FoundAt(next, i, k);
      forall j | 0 <= j < |slots|
        ensures slots[j].kind != k
      {
        assert slots[j] == next[if j < i then j else j + 1];
        assert next[i].kind == k;
      }
      Missing(slots, k);
    } else {
      var j := IndexOf(slots, k);
      if j < |slots| {
        FoundAt(slots, j, k);
        var j' := if j < i then j else j + 1;
        assert next[j'] == slots[j];
        FoundAt(next, j', k);
      } else {
        Missing(slots, k);
        Missing(next, k);
      }
    }
  }

  /** The balance of the history only depends on the events waiting for each type. */
  lemma BalanceKept<E>(a: seq<Slot<E>>, b: seq<Slot<E>>, log: seq<Entry<E>>)
    requires Balanced(a, log) && forall k: nat :: SameQueue(a, b, k)
    ensures Balanced(b, log)
  {
    hide SettledOf, SubmittedOf, WaitingOf, SubscribersOf;
    forall k: nat
      ensures SettledOf(log, k) + WaitingOf(b, k) == SubmittedOf(log, k)
    {
      assert SameQueue(a, b, k);
    }
  }

  lemma SubscribersAt<E>(was: seq<Slot<E>>, slots: seq<Slot<E>>, i: nat)
    requires Ordered(slots) && AllListed(slots) && i < |slots| && SameQueue(was, slots, slots[i].kind)
    ensures SubscribersOf(was, slots[i].kind) == slots[i].delegates && WaitingOf(was, slots[i].kind) == slots[i].waiting
    ensures SubscribersOf(slots, slots[i].kind) == slots[i].delegates
      && WaitingOf(slots, slots[i].kind) == slots[i].waiting
    ensures Listed(slots[i].delegates)
  {
    FoundAt(slots, i, slots[i].kind);
  }

  /** Changing the subscriptions of one type changes nothing else. */
  lemma Resubscribed<E>(first: seq<Slot<E>>, was: seq<Slot<E>>, i: nat, ds: seq<Subscription>, next: seq<Slot<E>>,
      log: seq<Entry<E>>)
    requires Ordered(was) && AllListed(was) && Balanced(was, log) && i < |was| && Listed(ds)
    requires forall k: nat :: SameQueue(first, was, k)
    requires next == was[i := was[i].(delegates := ds)]
    ensures Ordered(next) && AllListed(next) && Balanced(next, log)
    ensures forall k: nat :: k != was[i].kind ==> SameQueue(first, next, k)
    ensures WaitingOf(next, was[i].kind) == WaitingOf(first, was[i].kind) && SubscribersOf(next, was[i].kind) == ds
  {
    hide SettledOf, SubmittedOf;
    assert Ordered(next);
    forall k: nat
      ensures WaitingOf(next, k) == WaitingOf(was, k)
      ensures k != was[i].kind ==> SubscribersOf(next, k) == SubscribersOf(was, k)
    {
      KindsKept(was, next, k);
      IndexUnique(was, i);
    }
    IndexUnique(next, i);
    assert SameQueue(first, was, was[i].kind);
    forall k: nat | k != was[i].kind
      ensures SameQueue(first, next, k)
    {
      assert SameQueue(first, was, k);
    }
    forall k: nat
      ensures SettledOf(log, k) + WaitingOf(next, k) == SubmittedOf(log, k)
    {
      assert WaitingOf(next, k) == WaitingOf(was, k);
    }
  }

  lemma KindsKept<E>(a: seq<Slot<E>>, b: seq<Slot<E>>, kind: nat)
    requires |a| == |b| && forall i :: 0 <= i < |a| ==> a[i].kind == b[i].kind
    ensures IndexOf(a, kind) == IndexOf(b, kind)
  {
  }

  lemma {:induction false} TotalZero<E>(slots: seq<Slot<E>>)
    ensures TotalWaiting(slots) == 0 <==> AllEmpty(slots)
  {
    if slots != [] {
      var most := slots[..|slots| - 1];
      TotalZero(most);
      assert slots == most + [slots[|slots| - 1]];
    }
  }

  /** The delivery of the only event waiting, whose handlers enqueue nothing. */
  ghost predicate LastOne<W, E>(react: Behaviour<W, E>, m: Moment<W, E>)
    requires Ready(m)
  {
    TotalWaiting(m.slots) == 1 && Accepted(m.slots, Effect(react, m).posts) == 0
  }

  /** Nothing is left after a delivery exactly when it was of that kind. */
  lemma NothingLeft<W, E>(react: Behaviour<W, E>, m: Moment<W, E>)
    requires Ready(m)
    ensures AllEmpty(After(react, m).0) <==> LastOne(react, m)
  {
    hide After, Effect, AllEmpty, TotalWaiting, Accepted;
    LeftAfter(react, m);
    TotalZero(After(react, m).0);
    TotalZero(m.slots);
    assert TotalWaiting(m.slots) > 0 by { SomethingWaits(m); }
  }

  lemma SomethingWaits<W, E>(m: Moment<W, E>)
    requires Ready(m)
    ensures TotalWaiting(m.slots) > 0
  {
    TotalZero(m.slots);
  }

  class EventBus<W(!new), E(!new)> {
    /** What the handlers do, and what the clock reads each time it is asked. */
    const react: Behaviour<W, E>
    const clock: nat -> int

    var world: W
    var ticks: nat
    var slots: seq<Slot<E>>
    ghost var log: seq<Entry<E>>

    ghost predicate Valid()
      reads this`slots, this`log
    {
      Ordered(slots) && AllListed(slots) && Balanced(slots, log)
    }

    constructor (react: Behaviour<W, E>, clock: nat -> int, world: W)
      ensures Valid() && slots == [] && log == [] && ticks == 0
      ensures this.react == react && this.clock == clock && this.world == world
    {
      this.react, this.clock, this.world := react, clock, world;
      ticks, slots, log := 0, [], [];
    }

    /** The queue for `kind`, created in its place among the types when there is none. */
    method GetOrCreate(kind: nat) returns (i: nat)
      requires Valid()
      modifies this`slots
      ensures Valid() && i < |slots| && slots[i].kind == kind
      ensures forall k: nat :: SameQueue(old(slots), slots, k)
    {
      hide Balanced, IndexOf, SameQueue;
      i := 0;
      while i < |slots| && slots[i].kind < kind
        invariant i <= |slots| && forall j :: 0 <= j < i ==> slots[j].kind < kind
      {
        i := i + 1;
      }
      if i == |slots| || slots[i].kind != kind {
        ghost var was := slots;
        slots := slots[..i] + [Slot(kind, [], [])] + slots[i..];
        forall k: nat
          ensures SameQueue(was, slots, k)
        {
          CreateKeeps(was, i, kind, slots, k);
        }
        BalanceKept(was, slots, log);
      } else {
        forall k: nat
          ensures SameQueue(slots, slots, k)
        {
          SameAsItself(slots, k);
        }
      }
    }

    /** Registers a handler once; the subscriptions stay sorted by priority. */
    method Subscribe(kind: nat, handler: Handler, priority: nat)
      requires Valid()
      modifies this`slots
      ensures Valid() && forall k: nat :: k != kind ==> SameQueue(old(slots), slots, k)
      ensures WaitingOf(slots, kind) == WaitingOf(old(slots), kind)
      ensures var was := SubscribersOf(old(slots), kind);
        multiset(SubscribersOf(slots, kind)) ==
          if Listens(was, handler) then multiset(was) else multiset(was + [Subscription(priority, handler)])
    {
      hide Balanced, IndexOf, SameQueue, Ordered, AllListed, Listens;
      var i := GetOrCreate(kind);
      assert SameQueue(old(slots), slots, kind);
      SubscribersAt(old(slots), slots, i);
      var at := Position(slots[i].delegates, handler);
      if at == |slots[i].delegates| {
        ghost var was := slots;
        var ds := Insert(slots[i].delegates, Subscription(priority, handler));
        slots := slots[i := slots[i].(delegates := ds)];
        Resubscribed(old(slots), was, i, ds, slots, log);
      }
    }

    /** Removes a handler; the answer says whether it was registered. */
    method Unsubscribe(kind: nat, handler: Handler) returns (found: bool)
      requires Valid()
      modifies this`slots
      ensures Valid() && forall k: nat :: k != kind ==> SameQueue(old(slots), slots, k)
      ensures WaitingOf(slots, kind) == WaitingOf(old(slots), kind)
      ensures found == Listens(SubscribersOf(old(slots), kind), handler)
      ensures !found ==> SubscribersOf(slots, kind) == SubscribersOf(old(slots), kind)
      ensures found ==> var was, now := SubscribersOf(old(slots), kind), SubscribersOf(slots, kind);
        exists j :: 0 <= j < |was| && was[j].handler == handler && now == was[..j] + was[j + 1..]
      ensures var now := SubscribersOf(slots, kind); forall j :: 0 <= j < |now| ==> now[j].handler != handler
    {
      hide Balanced, IndexOf, SameQueue, Ordered, AllListed;
      var i := GetOrCreate(kind);
      assert SameQueue(old(slots), slots, kind);
      SubscribersAt(old(slots), slots, i);
      var at := Position(slots[i].delegates, handler);
      found := at < |slots[i].delegates|;
      if found {
        ghost var was := slots;
        var ds := Without(slots[i].delegates, at);
        AscendingAt(slots, i);
        slots := slots[i := slots[i].(delegates := ds)];
        Resubscribed(old(slots), was, i, ds, slots, log);
      }
    }

    method Enqueue(kind: nat, event: E)
      requires Valid()
      modifies this`slots, this`log
      ensures Valid() && SameShape(old(slots), slots)
      ensures slots == Submit(old(slots), Post(kind, event))
      ensures var at := IndexOf(old(slots), kind); at < |slots| ==>
        slots[at].waiting == old(slots)[at].waiting + [event] && log == old(log) + [Submitted(kind, event)]
      ensures IndexOf(old(slots), kind) == |slots| ==> slots == old(slots) && log == old(log)
      ensures forall i :: 0 <= i < |slots| && slots[i].kind != kind ==> slots[i] == old(slots)[i]
      ensures log == Note(old(slots), old(log), Post(kind, event))
    {
      hide Balanced, Submit;
      SubmitBalances(slots, log, Post(kind, event));
      SubmitAppends(slots, Post(kind, event));
      ghost var before := slots;
      log := Note(slots, log, Post(kind, event));
      slots := Submit(slots, Post(kind, event));
      ShapeKept(before, slots);
    }

    /** Calls the handlers of one type, highest priority first, until one consumes the event; their posts are
        enqueued as they come. */
    method HandOut(i: nat, event: E) returns (reached: nat)
      requires i < |slots|
      modifies this`world, this`slots, this`log
      ensures var o := Deliver(react, old(slots)[i].delegates, Post(old(slots)[i].kind, event), old(world));
        && reached == o.reached && world == o.world
        && slots == SubmitAll(old(slots), o.posts) && log == NoteAll(old(slots), old(log), o.posts)
    {
      hide Deliver, SubmitAll, NoteAll;
      var ds := slots[i].delegates;
      var p := Post(slots[i].kind, event);
      ghost var done: seq<Post<E>>, rest := [], Deliver(react, ds, p, world);
      ghost var o := rest;
      NothingPosted(slots, log);
      assert ds[..|ds|] == ds;
      var consumed := false;
      reached := 0;
      while reached < |ds| && !consumed
        invariant reached <= |ds|
        invariant rest == if consumed then Outcome(world, [], 0) else Deliver(react, ds[..|ds| - reached], p, world)
        invariant o.world == rest.world && o.posts == done + rest.posts && o.reached == reached + rest.reached
        invariant slots == SubmitAll(old(slots), done) && log == NoteAll(old(slots), old(log), done)
      {
        ghost var left := ds[..|ds| - reached];
        DeliverTop(react, left, p, world);
        assert left[..|left| - 1] == ds[..|ds| - reached - 1];
        var r := react(ds[|ds| - 1 - reached].handler, p, world);
        consumed, world, reached := r.consumed, r.world, reached + 1;
        PostAll(r.posts);
        SubmitJoin(old(slots), done, r.posts);
        NoteJoin(old(slots), old(log), done, r.posts);
        done := done + r.posts;
        rest := if consumed then Outcome(world, [], 0) else Deliver(react, left[..|left| - 1], p, world);
      }
      if !consumed {
        assert ds[..0] == [];
        NobodyLeft(react, p, world);
      }
      assert o.posts == done;
    }

    method PostAll(posts: seq<Post<E>>)
      modifies this`slots, this`log
      ensures slots == SubmitAll(old(slots), posts) && log == NoteAll(old(slots), old(log), posts)
    {
      for n := 0 to |posts|
        invariant slots == SubmitAll(old(slots), posts[..n]) && log == NoteAll(old(slots), old(log), posts[..n])
      {
        assert posts[..n + 1][..n] == posts[..n];
        SameIndex(old(slots), slots, posts[n].kind);
        log := Note(slots, log, posts[n]);
        slots := Submit(slots, posts[n]);
      }
      assert posts[..|posts|] == posts;
    }

    /** Fires an event at once; the queues only see what the handlers post. */
    method Fire(kind: nat, event: E)
      requires Valid()
      modifies this`world, this`slots, this`log
      ensures Valid() && SameShape(old(slots), slots)
      ensures var o := Deliver(react, SubscribersOf(old(slots), kind), Post(kind, event), old(world));
        world == o.world && slots == SubmitAll(old(slots), o.posts) && log == NoteAll(old(slots), old(log), o.posts)
    {
      hide Balanced, Ordered, AllListed, Deliver, SubmitAll, NoteAll;
      ghost var o := Deliver(react, SubscribersOf(slots, kind), Post(kind, event), world);
      SubmitAllBalances(slots, log, o.posts);
      var i := IndexOf(slots, kind);
      if i < |slots| {
        var _ := HandOut(i, event);
      } else {
        NobodyLeft(react, Post(kind, event), world);
        NothingPosted(slots, log);
      }
      ShapeKept(old(slots), slots);
    }

    method Drop(kind: nat)
      requires Valid()
      modifies this`slots, this`log
      ensures Valid() && SameShape(old(slots), slots) && old(log) <= log
      ensures forall k: nat :: WaitingOf(slots, k) == if k == kind then [] else WaitingOf(old(slots), k)
    {
      hide Balanced, IndexOf;
      var i := IndexOf(slots, kind);
      if i < |slots| {
        DropBalances(slots, log, i);
        ghost var was := slots;
        IndexUnique(slots, i);
        log := log + [Dropped(kind)];
        slots := Refill(slots, i, []);
        ShapeKept(was, slots);
        forall k: nat
          ensures WaitingOf(slots, k) == if k == kind then [] else WaitingOf(was, k)
        {
          RefillWaiting(was, i, [], k);
        }
      }
    }

    method UnprocessedCount() returns (n: nat)
      ensures n == TotalWaiting(slots)
      ensures n == 0 <==> AllEmpty(slots)
    {
      n := 0;
      for i := 0 to |slots|
        invariant n == TotalWaiting(slots[..i])
        invariant n == 0 <==> AllEmpty(slots[..i])
      {
        assert slots[..i + 1][..i] == slots[..i];
        n := n + |slots[i].waiting|;
        assert slots[..i + 1] == slots[..i] + [slots[i]];
      }
      assert slots[..|slots|] == slots;
    }

    /** Delivers the oldest event of a queue and takes it off. */
    method DeliverFront(i: nat)
      requires Valid() && i < |slots| && slots[i].waiting != []
      modifies this`world, this`slots, this`log
      ensures Valid() && SameShape(old(slots), slots)
      ensures var p := Post(old(slots)[i].kind, old(slots)[i].waiting[0]);
        var o := Deliver(react, old(slots)[i].delegates, p, old(world));
        var mid := SubmitAll(old(slots), o.posts);
        && world == o.world
        && mid[i].waiting != [] && mid[i].waiting[0] == p.event && slots == PopAt(mid, i)
        && log == NoteAll(old(slots), old(log), o.posts) + [Delivered(p.kind, p.event, o.reached)]
    {
      hide Deliver, SubmitAll, NoteAll, Balanced, Ordered, AllListed;
      ghost var event := slots[i].waiting[0];
      ghost var o := Deliver(react, slots[i].delegates, Post(slots[i].kind, event), world);
      SubmitAllBalances(slots, log, o.posts);
      SubmitBehind(slots, o.posts, i);
      var reached := HandOut(i, slots[i].waiting[0]);
      ShapeKept(old(slots), slots);
      PopBalances(slots, log, i, reached);
      log := log + [Delivered(slots[i].kind, slots[i].waiting[0], reached)];
      slots := PopAt(slots, i);
      ShapeKept(old(slots), slots);
    }

    method Now() returns (t: int)
      modifies this`ticks
      ensures t == clock(old(ticks)) && ticks == old(ticks) + 1
    {
      t := clock(ticks);
      ticks := ticks + 1;
    }

    /** The ordinal `o` bounds every chain of deliveries from here. */
    ghost predicate Bounded(rank: Rank<E>, top: nat, o: ORDINAL)
      reads this`slots
    {
      Below(RanksOf(rank, slots), top) && Ends#[o](Counts(RanksOf(rank, slots), top))
    }

    /** No reading of the clock in this stretch was past the deadline. */
    ghost predicate InTime(deadline: Deadline, from: nat, to: nat)
    {
      forall n :: from <= n < to ==> !deadline.PassedAt(clock(n))
    }

    /** The deliveries of `run` have led here from an earlier state, the clock being read after each. */
    ghost predicate Came(run: seq<Moment<W, E>>, was: seq<Slot<E>>, before: W, from: nat)
      reads this`slots, this`world, this`ticks
    {
      Leads(react, run, was, before, slots, world) && ticks == from + |run|
    }

    /** One delivery with its clock reading, which goes on a run of deliveries. */
    method Advance(i: nat, ghost rank: Rank<E>, ghost top: nat, ghost o: ORDINAL,
                   ghost run: seq<Moment<W, E>>, ghost was: seq<Slot<E>>, ghost before: W, ghost from: nat)
      returns (now: int, ghost p: ORDINAL, ghost longer: seq<Moment<W, E>>)
      requires Valid() && i < |slots| && slots[i].waiting != []
      requires Lowers(react, rank) && Bounded(rank, top, o) && Came(run, was, before, from)
      modifies this`world, this`slots, this`log, this`ticks
      ensures Valid() && SameShape(old(slots), slots) && old(log) <= log
      ensures p < o && Bounded(rank, top, p)
      ensures ticks == old(ticks) + 1 && now == clock(old(ticks))
      ensures |longer| == |run| + 1 && Came(longer, was, before, from)
      ensures Ready(longer[|run|]) && (slots[i].waiting == [] <==> LastOfQueue(react, longer[|run|]))
    {
      hide Balanced, Ordered, AllListed, Deliver, SubmitAll, RanksOf, Lowers, LexLess, Counts, Ends, Below, Leads,
        LastOfQueue;
      ghost var s, m := slots, Moment(slots, world, i);
      ghost var mid := SubmitAll(s, Effect(react, m).posts);
      DeliveryDescends(react, rank, slots, i, world, top, mid);
      QueueLeft(react, m);
      DeliverFront(i);
      p := Descend(o, Counts(RanksOf(rank, s), top), Counts(RanksOf(rank, slots), top));
      longer := Extend(run, m, was, before);
      now := Now();
    }

    /** Drains one queue, or stops after the delivery during which the deadline passed; then the queue is empty
        exactly when that event was its only one and none of its type was enqueued. */
    method Process(i: nat, deadline: Deadline, ghost rank: Rank<E>, ghost top: nat, ghost o: ORDINAL)
      returns (drained: bool, ghost p: ORDINAL, ghost run: seq<Moment<W, E>>)
      requires Valid() && i < |slots|
      requires Lowers(react, rank) && Bounded(rank, top, o)
      modifies this`world, this`slots, this`log, this`ticks
      ensures Valid() && SameShape(old(slots), slots) && old(log) <= log
      ensures p <= o && Bounded(rank, top, p) && (run == [] || p < o)
      ensures Came(run, old(slots), old(world), old(ticks)) && (run == [] <==> old(slots)[i].waiting == [])
      ensures drained ==> slots[i].waiting == [] && InTime(deadline, old(ticks), ticks)
      ensures !drained ==> run != [] && Late(deadline, old(ticks), ticks)
      ensures !drained ==> Ready(run[|run| - 1]) && (slots[i].waiting == [] <==> LastOfQueue(react, run[|run| - 1]))
    {
      hide Valid, Bounded, Lowers, InTime, SameShape, Came, LastOfQueue, Ready;
      p, run := o, [];
      StartOfRun();
      NoTime(deadline, ticks);
      while slots[i].waiting != []
        invariant |slots| == |old(slots)| && Valid() && SameShape(old(slots), slots) && old(log) <= log
        invariant p <= o && Bounded(rank, top, p) && (run == [] || p < o)
        invariant Came(run, old(slots), old(world), old(ticks)) && ticks == old(ticks) + |run|
        invariant run == [] ==> slots == old(slots)
        invariant run != [] ==> old(slots)[i].waiting != []
        invariant InTime(deadline, old(ticks), ticks)
        decreases p
      {
        var now: int;
        ghost var s := slots;
        now, p, run := Advance(i, rank, top, p, run, old(slots), old(world), old(ticks));
        ShapeChain(old(slots), s, slots);
        if deadline.PassedAt(now) {
          return false, p, run;
        }
        StillInTime(deadline, old(ticks), ticks);
      }
      drained := true;
    }

    lemma StartOfRun()
      ensures Came([], slots, world, ticks) && SameShape(slots, slots)
    {
    }

    lemma NoTime(deadline: Deadline, at: nat)
      ensures InTime(deadline, at, at)
    {
    }

    lemma StillInTime(deadline: Deadline, from: nat, to: nat)
      requires from < to && InTime(deadline, from, to - 1) && !deadline.PassedAt(clock(to - 1))
      ensures InTime(deadline, from, to)
    {
    }

    /** One more delivery at the end of a run. */
    lemma Extend(run: seq<Moment<W, E>>, m: Moment<W, E>, was: seq<Slot<E>>, before: W) returns (r: seq<Moment<W, E>>)
      requires Leads(react, run, was, before, m.slots, m.world) && Ready(m) && After(react, m) == (slots, world)
      ensures r == run + [m] && Leads(react, r, was, before, slots, world)
    {
      r := run + [m];
      assert r[..|r| - 1] == run;
    }

    /** The last reading of the clock was past the deadline and no earlier one. */
    ghost predicate Late(deadline: Deadline, from: nat, to: nat)
    {
      to > from && InTime(deadline, from, to - 1) && deadline.PassedAt(clock(to - 1))
    }

    method Empty() returns (empty: bool)
      ensures empty <==> AllEmpty(slots)
    {
      for i := 0 to |slots|
        invariant forall j :: 0 <= j < i ==> slots[j].waiting == []
      {
        if slots[i].waiting != [] { return false; }
      }
      empty := true;
    }

    /** One pass over the queues in the order of their types. */
    method Sweep(timed: bool, deadline: Deadline, ghost rank: Rank<E>, ghost top: nat, ghost o: ORDINAL)
      returns (done: bool, ghost p: ORDINAL, ghost run: seq<Moment<W, E>>)
      requires Valid() && (deadline.At? ==> timed)
      requires Lowers(react, rank) && Bounded(rank, top, o)
      modifies this`world, this`slots, this`log, this`ticks
      ensures Valid() && SameShape(old(slots), slots) && old(log) <= log
      ensures p <= o && Bounded(rank, top, p) && (run == [] || p < o)
      ensures Came(run, old(slots), old(world), old(ticks)) && (!AllEmpty(old(slots)) ==> run != [])
      ensures done ==> InTime(deadline, old(ticks), ticks)
      ensures !done ==> run != [] && Late(deadline, old(ticks), ticks)
    {
      hide Valid, Bounded, Lowers, Leads;
      p, run := o, [];
      NoRun(slots, world);
      for i := 0 to |slots|
        invariant |slots| == |old(slots)| && Valid() && SameShape(old(slots), slots) && old(log) <= log
        invariant p <= o && Bounded(rank, top, p) && (run == [] || p < o)
        invariant Came(run, old(slots), old(world), old(ticks))
        invariant run == [] ==> slots == old(slots) && forall j :: 0 <= j < i ==> slots[j].waiting == []
        invariant InTime(deadline, old(ticks), ticks)
      {
        ghost var s1, w1 := slots, world;
        var drained: bool;
        ghost var more: seq<Moment<W, E>>;
        drained, p, more := Process(i, deadline, rank, top, p);
        LeadsJoin(react, run, more, old(slots), old(world), s1, w1, slots, world);
        assert run + more == [] ==> more == [] && slots == s1 by { NoRunStays(more, s1, w1); }
        run := run + more;
        if !drained && timed {
          return false, p, run;
        }
      }
      done := true;
    }

    lemma NoRun(s: seq<Slot<E>>, w: W)
      ensures Leads(react, [], s, w, s, w)
    {
    }

    lemma NoRunStays(run: seq<Moment<W, E>>, s: seq<Slot<E>>, w: W)
      requires Leads(react, run, s, w, slots, world)
      ensures run == [] ==> slots == s
    {
    }

    /**
     * Handles every waiting event, those enqueued on the way included. With a timeout it gives up exactly
     * when the clock, read after each delivery, has passed the deadline; then events are left exactly when the
     * last delivery was not of the only event waiting, or made its handlers enqueue some.
     */
    method Dispatch(timeout: int, ghost rank: Rank<E>) returns (done: bool, ghost run: seq<Moment<W, E>>)
      requires Valid() && Lowers(react, rank)
      modifies this`world, this`slots, this`log, this`ticks
      ensures Valid() && SameShape(old(slots), slots) && old(log) <= log
      ensures Came(run, old(slots), old(world), old(ticks) + if timeout > 0 then 1 else 0)
      ensures !AllEmpty(old(slots)) ==> run != []
      ensures timeout <= 0 ==> done
      ensures done ==> AllEmpty(slots) && forall kind: nat :: SettledOf(log, kind) == SubmittedOf(log, kind)
      ensures timeout > 0 && done ==> forall n :: old(ticks) < n < ticks ==> clock(n) <= clock(old(ticks)) + timeout
      ensures !done ==> ticks > old(ticks) + 1 && clock(ticks - 1) > clock(old(ticks)) + timeout
      ensures !done ==> forall n :: old(ticks) < n < ticks - 1 ==> clock(n) <= clock(old(ticks)) + timeout
      ensures timeout > 0 && (forall n :: clock(n) <= clock(old(ticks)) + timeout) ==> done
      ensures !done ==> run != [] && Ready(run[|run| - 1]) && (AllEmpty(slots) <==> LastOne(react, run[|run| - 1]))
    {
      hide Valid, Bounded, Lowers, AllEmpty, Leads, LastOne;
      var timed := timeout > 0;
      var deadline := Never;
      if timed {
        var now := Now();
        deadline := At(now + timeout);
      }
      ghost var from := ticks;
      ghost var top, p := StartBound(rank);
      run := [];
      NoRun(slots, world);
      var empty := Empty();
      while !empty
        invariant empty == AllEmpty(slots)
        invariant Valid() && SameShape(old(slots), slots) && old(log) <= log
        invariant Bounded(rank, top, p) && Came(run, old(slots), old(world), from)
        invariant !AllEmpty(old(slots)) ==> run != [] || !empty
        invariant InTime(deadline, from, ticks)
        decreases p, !empty
      {
        ghost var s1, w1 := slots, world;
        var swept: bool;
        ghost var more: seq<Moment<W, E>>;
        swept, p, more := Sweep(timed, deadline, rank, top, p);
        LeadsJoin(react, run, more, old(slots), old(world), s1, w1, slots, world);
        run := run + more;
        if !swept {
          WhatIsLeft(run, old(slots), old(world));
          return false, run;
        }
        empty := Empty();
      }
      done := true;
      Drained();
    }

    lemma WhatIsLeft(run: seq<Moment<W, E>>, was: seq<Slot<E>>, before: W)
      requires Leads(react, run, was, before, slots, world) && run != []
      ensures Ready(run[|run| - 1]) && (AllEmpty(slots) <==> LastOne(react, run[|run| - 1]))
    {
      hide After, AllEmpty, LastOne;
      NothingLeft(react, run[|run| - 1]);
    }

    lemma Drained()
      requires Valid() && AllEmpty(slots)
      ensures forall kind: nat :: SettledOf(log, kind) == SubmittedOf(log, kind)
    {
      hide SettledOf, SubmittedOf;
      forall kind: nat
        ensures SettledOf(log, kind) == SubmittedOf(log, kind)
      {
        assert WaitingOf(slots, kind) == [];
        assert SettledOf(log, kind) + WaitingOf(slots, kind) == SubmittedOf(log, kind);
      }
    }

    lemma StartBound(rank: Rank<E>) returns (top: nat, o: ORDINAL)
      ensures Bounded(rank, top, o)
    {
      top := Ceiling(RanksOf(rank, slots));
      AlwaysEnds(Counts(RanksOf(rank, slots), top));
      o :| Ends#[o](Counts(RanksOf(rank, slots), top));
    }
  }

  lemma Ceiling(bag: multiset<nat>) returns (top: nat)
    ensures Below(bag, top)
    decreases |bag|
  {
    if bag == multiset{} {
      top := 0;
    } else {
      var x: nat :| x in bag;
      top := Ceiling(bag - multiset{x});
      top := if x < top then top else x + 1;
      forall y: nat | y in bag
        ensures y < top
      {
        assert y == x || y in bag - multiset{x};
      }
    }
  }

  lemma ShapeChain<E>(a: seq<Slot<E>>, b: seq<Slot<E>>, c: seq<Slot<E>>)
    requires SameShape(a, b) && SameShape(b, c)
    ensures SameShape(a, c) && |a| == |c|
  {
  }

  lemma ShapeKept<E>(a: seq<Slot<E>>, b: seq<Slot<E>>)
    requires SameShape(a, b) && Ordered(a) && AllListed(a)
    ensures Ordered(b) && AllListed(b)
  {
  }

  lemma NothingPosted<E>(slots: seq<Slot<E>>, log: seq<Entry<E>>)
    ensures SubmitAll(slots, []) == slots && NoteAll(slots, log, []) == log
  {
  }

  lemma NobodyLeft<W, E>(react: Behaviour<W, E>, p: Post<E>, w: W)
    ensures Deliver(react, [], p, w) == Outcome(w, [], 0)
  {
  }

  lemma DeliverTop<W, E>(react: Behaviour<W, E>, ds: seq<Subscription>, p: Post<E>, w: W)
    requires ds != []
    ensures var r := react(ds[|ds| - 1].handler, p, w);
      var o := Deliver(react, ds, p, w);
      var rest := if r.consumed then Outcome(r.world, [], 0) else Deliver(react, ds[..|ds| - 1], p, r.world);
      o.world == rest.world && o.posts == r.posts + rest.posts && o.reached == 1 + rest.reached
  {
  }

  /** Handlers are reached in descending priority; those never reached rank no higher, and are passed over only when
      the last one reached consumed the event. */
  lemma HighestFirst<W, E>(react: Behaviour<W, E>, ds: seq<Subscription>, p: Post<E>, w: W)
    requires Listed(ds)
    ensures var n := Deliver(react, ds, p, w).reached;
      && n <= |ds|
      && (forall j, k :: 0 <= j < k < |ds| && j < n ==> FromTop(ds, j).priority >= FromTop(ds, k).priority)
      && (forall j :: 0 <= j < n - 1 ==> !Consumes(react, ds, p, w, j))
      && (n < |ds| ==> n > 0 && Consumes(react, ds, p, w, n - 1))
  {
    hide Deliver, Consumes;
    ReachesFirstConsumer(react, ds, p, w);
  }

  // ---- Some runs ----

  /** A handler that enqueues the event it handles and changes nothing else. */
  function Echo<E>(): Behaviour<int, E> { (h, p, w) => Reaction(w, false, [p]) }

  function EchoSlots<E>(d: Subscription, e: E): seq<Slot<E>> { [Slot(0, [d], [e])] }

  /** Delivering its event leaves the whole state of the bus as it was. */
  lemma EchoRepeats<E>(e: E, d: Subscription, w: int)
    ensures Ready(Moment(EchoSlots(d, e), w, 0)) && After(Echo(), Moment(EchoSlots(d, e), w, 0)) == (EchoSlots(d, e), w)
  {
    var slots, p := EchoSlots(d, e), Post(0, e);
    assert [d][..0] == [];
    assert Deliver(Echo(), [], p, w) == Outcome(w, [], 0);
    assert Deliver(Echo(), [d], p, w).posts == [p] + [];
    assert [p][..0] == [] && SubmitAll(slots, []) == slots;
    assert SubmitAll(slots, [p]) == Submit(slots, p);
    assert Submit(slots, p) == [Slot(0, [d], [e] + [e])];
    assert PopAt([Slot(0, [d], [e] + [e])], 0) == slots;
    assert Effect(Echo(), Moment(slots, w, 0)) == Outcome(w, [p] + [], 1);
    assert [p] + [] == [p];
  }

  /** So no number of deliveries ever drains the bus: without falling ranks a dispatch need not end. */
  lemma {:induction false} EchoNeverDrains<E>(e: E, d: Subscription, w: int, run: seq<Moment<int, E>>,
      slots: seq<Slot<E>>, w': int)
    requires Leads(Echo(), run, EchoSlots(d, e), w, slots, w')
    ensures slots == EchoSlots(d, e) && w' == w && !AllEmpty(slots)
    decreases |run|
  {
    hide After;
    if run != [] {
      var last := run[|run| - 1];
      EchoNeverDrains(e, d, w, run[..|run| - 1], last.slots, last.world);
      EchoRepeats(e, d, w);
      assert last == Moment(EchoSlots(d, e), w, 0);
    }
    assert EchoSlots(d, e)[0].waiting == [e];
  }

  ghost predicate Silent<W(!new), E(!new)>(react: Behaviour<W, E>)
  {
    forall h: Handler, p: Post<E>, w: W :: react(h, p, w).posts == []
  }

  /** A handler that consumes its event and enqueues nothing. */
  function Sink(): Behaviour<int, int> { (h, p, w) => Reaction(w, true, []) }

  lemma SinkIsSilent()
    ensures Silent(Sink()) && Lowers(Sink(), (p: Post<int>) => 0)
  {
  }

  lemma {:induction false} SilentPostsNothing<W(!new), E(!new)>(react: Behaviour<W, E>, ds: seq<Subscription>,
      p: Post<E>, w: W)
    requires Silent(react)
    ensures Deliver(react, ds, p, w).posts == []
    decreases |ds|
  {
    if ds != [] {
      SilentPostsNothing(react, ds[..|ds| - 1], p, react(ds[|ds| - 1].handler, p, w).world);
    }
  }

  /** Every queue is empty when nothing waits for any type. */
  lemma NoneWaiting<E>(slots: seq<Slot<E>>)
    requires Ordered(slots) && forall k: nat :: WaitingOf(slots, k) == []
    ensures AllEmpty(slots)
  {
    hide WaitingOf;
    forall i | 0 <= i < |slots|
      ensures slots[i].waiting == []
    {
      FoundAt(slots, i, slots[i].kind);
      assert WaitingOf(slots, slots[i].kind) == [];
    }
  }

  /** A bus with one queue, one silent handler and one event. */
  method OneEvent(clock: nat -> int) returns (bus: EventBus<int, int>)
    ensures fresh(bus) && bus.Valid() && bus.ticks == 0 && bus.clock == clock && TotalWaiting(bus.slots) == 1
    ensures bus.react == Sink() && IndexOf(bus.slots, 0) < |bus.slots|
  {
    bus := new EventBus(Sink(), clock, 0);
    hide Balanced, TotalWaiting, AllListed, WaitingOf, SubscribersOf, IndexOf, SameQueue, Ordered, Submit, SameShape;
    NoQueues();
    ghost var none := bus.slots;
    bus.Subscribe(0, 0, 0);
    ghost var slots := bus.slots;
    assert [] + [Subscription(0, 0)] == [Subscription(0, 0)];
    OneListens(none, slots);
    bus.Enqueue(0, 7);
    OneAdded(slots, bus.slots);
  }

  /** With one subscription made there is one queue to fill, and nothing waits. */
  lemma OneListens(none: seq<Slot<int>>, slots: seq<Slot<int>>)
    requires none == [] && Ordered(slots) && forall k: nat :: k != 0 ==> SameQueue(none, slots, k)
    requires WaitingOf(slots, 0) == []
    requires multiset(SubscribersOf(slots, 0)) == multiset([Subscription(0, 0)])
    ensures IndexOf(slots, 0) < |slots| && TotalWaiting(slots) == 0 && slots[IndexOf(slots, 0)].waiting == []
  {
    NoQueues();
    hide WaitingOf, SubscribersOf, IndexOf, TotalWaiting, Ordered;
    forall k: nat
      ensures WaitingOf(slots, k) == []
    {
      assert k == 0 || SameQueue(none, slots, k);
    }
    assert |SubscribersOf(slots, 0)| == |multiset(SubscribersOf(slots, 0))|;
    Listening(slots);
  }

  lemma OneAdded(slots: seq<Slot<int>>, after: seq<Slot<int>>)
    requires IndexOf(slots, 0) < |slots| && TotalWaiting(slots) == 0
    requires after == Submit(slots, Post(0, 7))
    ensures TotalWaiting(after) == 1 && IndexOf(after, 0) < |after|
  {
    var i := IndexOf(slots, 0);
    hide TotalWaiting, IndexOf;
    TotalRefill(slots, i, slots[i].waiting + [7]);
    SameIndex(slots, after, 0);
  }

  lemma NoQueues()
    ensures forall k: nat :: WaitingOf<int>([], k) == [] && SubscribersOf<int>([], k) == []
  {
  }

  lemma Listening(slots: seq<Slot<int>>)
    requires Ordered(slots) && |SubscribersOf(slots, 0)| > 0 && forall k: nat :: WaitingOf(slots, k) == []
    ensures IndexOf(slots, 0) < |slots| && TotalWaiting(slots) == 0 && slots[IndexOf(slots, 0)].waiting == []
  {
    NoneWaiting(slots);
    TotalZero(slots);
  }

  /** The only event is delivered after the deadline: dispatch answers that it timed out, and nothing is left. */
  method TimedOutWithNothingLeft() returns (done: bool, count: nat)
    ensures !done && count == 0
  {
    var bus := OneEvent(n => if n == 0 then 0 else 10);
    ghost var slots, world := bus.slots, bus.world;
    SinkIsSilent();
    hide EventBus.Valid, Lowers, TotalWaiting, LastOne, AllEmpty;
    assert !AllEmpty(slots) by { TotalZero(slots); }
    ghost var run;
    done, run := bus.Dispatch(5, p => 0);
    assert bus.clock(1) == 10 && bus.clock(0) == 0;
    OnlyOne(bus.react, run, slots, world, bus.slots, bus.world);
    count := bus.UnprocessedCount();
  }

  /** Handlers that enqueue nothing take one event away with each delivery. */
  lemma {:induction false} SilentRun<W(!new), E(!new)>(react: Behaviour<W, E>, run: seq<Moment<W, E>>,
      s0: seq<Slot<E>>, w0: W, s1: seq<Slot<E>>, w1: W)
    requires Leads(react, run, s0, w0, s1, w1) && Silent(react)
    ensures |run| + TotalWaiting(s1) == TotalWaiting(s0)
    decreases |run|
  {
    hide TotalWaiting, After, Silent;
    if run != [] {
      var last := run[|run| - 1];
      SilentRun(react, run[..|run| - 1], s0, w0, last.slots, last.world);
      LeftAfter(react, last);
      var s := last.slots[last.i];
      SilentPostsNothing(react, s.delegates, Post(s.kind, s.waiting[0]), last.world);
      assert Accepted(last.slots, []) == 0;
    }
  }

  /** A clock that ticks once a reading, two events and a deadline five ticks away: both are delivered in time. */
  method DrainedInTime() returns (done: bool, count: nat, ghost run: seq<Moment<int, int>>)
    ensures done && count == 0 && |run| == 2
  {
    var bus := OneEvent(n => n);
    hide EventBus.Valid, TotalWaiting, IndexOf, Submit;
    ghost var slots := bus.slots;
    bus.Enqueue(0, 8);
    OneMore(slots, bus.slots, Post(0, 8));
    ghost var before, world := bus.slots, bus.world;
    SinkIsSilent();
    hide Lowers, LastOne, Silent;
    done, run := bus.Dispatch(5, p => 0);
    SilentRun(bus.react, run, before, world, bus.slots, bus.world);
    count := bus.UnprocessedCount();
  }

  lemma OneMore(slots: seq<Slot<int>>, next: seq<Slot<int>>, p: Post<int>)
    requires next == Submit(slots, p) && IndexOf(slots, p.kind) < |slots|
    ensures TotalWaiting(next) == TotalWaiting(slots) + 1
  {
    var i := IndexOf(slots, p.kind);
    TotalRefill(slots, i, slots[i].waiting + [p.event]);
  }

  lemma OnlyOne(react: Behaviour<int, int>, run: seq<Moment<int, int>>, s0: seq<Slot<int>>, w0: int,
      s1: seq<Slot<int>>, w1: int)
    requires Leads(react, run, s0, w0, s1, w1) && |run| == 1 && TotalWaiting(s0) == 1 && Silent(react)
    ensures Ready(run[0]) && LastOne(react, run[0])
  {
    LeadsFrom(react, run, s0, w0, s1, w1);
    var m := run[0];
    var s := m.slots[m.i];
    SilentPostsNothing(react, s.delegates, Post(s.kind, s.waiting[0]), m.world);
  }
}
