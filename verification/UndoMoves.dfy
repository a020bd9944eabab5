/** What each operation of the undo stack comes to on a timeline, and which operations take each other back. */
module UndoMoves {
  import opened Basics
  import opened UndoTimeline

  // ---- Moving the head ----

  /** The session with its head at `i`: the document is the state there and nothing else is different. */
  ghost function HeadAt<Cmd(!new), Doc(!new)>(x: Session<Cmd, Doc>, i: nat): Session<Cmd, Doc>
    requires i < |x.states|
  {
    Session(Stack(x.stack.history, x.stack.limit, i, x.stack.clean), x.states[i], x.states, x.cleanDoc)
  }

  /** Undoing goes back to the state before the head, and does nothing at the beginning. */
  lemma UndoGoesBack<Cmd(!new), Doc(!new)>(cl: Client<Cmd, Doc>, x: Session<Cmd, Doc>)
    requires OnTimeline(cl, x)
    ensures Step(cl, x, UndoOp) == if x.stack.head > 0 then HeadAt(x, x.stack.head - 1) else x
    ensures CanUndo(x.stack) <==> Step(cl, x, UndoOp) != x
  {
    var h := x.stack.head;
    assert h > 0 ==> Leads(cl, x.stack.history[h - 1], x.states[h - 1], x.states[h]);
  }

  /** Redoing goes on to the state after the head, and does nothing at the end. */
  lemma RedoGoesOn<Cmd(!new), Doc(!new)>(cl: Client<Cmd, Doc>, x: Session<Cmd, Doc>)
    requires OnTimeline(cl, x)
    ensures Step(cl, x, RedoOp) == if x.stack.head < |x.stack.history| then HeadAt(x, x.stack.head + 1) else x
    ensures CanRedo(x.stack) <==> Step(cl, x, RedoOp) != x
  {
    var h := x.stack.head;
    assert h < |x.stack.history| ==> Leads(cl, x.stack.history[h], x.states[h], x.states[h + 1]);
  }

  /** Any index can be reached at once; one beyond the history stands for its end. */
  lemma SetHeadReaches<Cmd(!new), Doc(!new)>(cl: Client<Cmd, Doc>, x: Session<Cmd, Doc>, index: nat)
    requires OnTimeline(cl, x)
    ensures index <= |x.stack.history| ==> Step(cl, x, SetHeadOp(index)) == HeadAt(x, index)
    ensures index > |x.stack.history| ==> Step(cl, x, SetHeadOp(index)) == HeadAt(x, |x.stack.history|)
  {
    MoveHeadFollows(cl, x.stack.history, x.states, x.stack.head, Clip(index, |x.stack.history|));
  }

  lemma HeadAtOnTimeline<Cmd(!new), Doc(!new)>(cl: Client<Cmd, Doc>, x: Session<Cmd, Doc>, i: nat)
    requires OnTimeline(cl, x) && i <= |x.stack.history|
    ensures OnTimeline(cl, HeadAt(x, i))
  {
  }

  /** Redoing takes back an undo. */
  lemma RedoTakesBackUndo<Cmd(!new), Doc(!new)>(cl: Client<Cmd, Doc>, x: Session<Cmd, Doc>)
    requires OnTimeline(cl, x) && x.stack.head > 0
    ensures Step(cl, Step(cl, x, UndoOp), RedoOp) == x
  {
    UndoGoesBack(cl, x);
    HeadAtOnTimeline(cl, x, x.stack.head - 1);
    RedoGoesOn(cl, HeadAt(x, x.stack.head - 1));
    hide Step;
  }

  /** Undoing takes back a redo. */
  lemma UndoTakesBackRedo<Cmd(!new), Doc(!new)>(cl: Client<Cmd, Doc>, x: Session<Cmd, Doc>)
    requires OnTimeline(cl, x) && x.stack.head < |x.stack.history|
    ensures Step(cl, Step(cl, x, RedoOp), UndoOp) == x
  {
    RedoGoesOn(cl, x);
    HeadAtOnTimeline(cl, x, x.stack.head + 1);
    UndoGoesBack(cl, HeadAt(x, x.stack.head + 1));
    hide Step;
  }

  // ---- Pushing ----

  /** The command pushed on top, joined with the one it meets there if that absorbs it. */
  ghost function Top<Cmd(!new), Doc(!new)>(cl: Client<Cmd, Doc>, s: Stack<Cmd>, c: Cmd): (r: (Cmd, bool))
    requires s.head <= |s.history|
    ensures r.1 <==> s.head > 0 && cl.mergeId(c) != -1 && cl.mergeId(s.history[s.head - 1]) == cl.mergeId(c)
                     && cl.merge(s.history[s.head - 1], c).Some?
    ensures r.0 == if r.1 then cl.merge(s.history[s.head - 1], c).value else c
  {
    match Absorbed(cl, Truncate(s), c)
    case Some(m) => (m, true)
    case None => (c, false)
  }

  /** What a push leaves. Of the commands up to the head the last one may absorb the new one, else the limit may
      cost the oldest one its place. */
  lemma PushPlaces<Cmd(!new), Doc(!new)>(cl: Client<Cmd, Doc>, s: Stack<Cmd>, c: Cmd)
    requires s.head <= |s.history|
    ensures var (top, merged) := Top(cl, s, c);
      var first := if !merged && s.limit > 0 && s.head >= s.limit then 1 else 0;
      var last := if merged then s.head - 1 else s.head;
      Placed(cl, Truncate(s), c) == s.history[first..last] + [top]
  {
    var t := Truncate(s);
    assert t.history == s.history[..s.head];
  }

  /** An obsolete command does not stay on top. A clean mark past the head, or on a command that does not stay, is
      lost; any other is kept. */
  lemma PushLeaves<Cmd(!new), Doc(!new)>(cl: Client<Cmd, Doc>, x: Session<Cmd, Doc>, c: Cmd)
    requires Formed(x)
    ensures var s, y := x.stack, Step(cl, x, PushOp(c));
      var (top, merged) := Top(cl, s, c);
      var first := if !merged && s.limit > 0 && s.head >= s.limit then 1 else 0;
      var below := s.history[first..if merged then s.head - 1 else s.head];
      && y.stack.history == (if cl.obsolete(top) then below else below + [top])
      && y.stack.head == |y.stack.history| && y.stack.limit == s.limit
      && y.stack.clean == (if s.head < s.clean && s.head < |s.history| then -1
                           else if cl.obsolete(top) && s.clean > |below| then -1 else s.clean)
      && y.doc == cl.redo(c, x.doc) && y.cleanDoc == x.cleanDoc
  {
    PushPlaces(cl, x.stack, c);
    hide Extended, Top, Placed;
  }

  /** A command that is neither absorbed nor obsolete is undone by undoing. */
  lemma UndoTakesBackPush<Cmd(!new), Doc(!new)>(cl: Client<Cmd, Doc>, x: Session<Cmd, Doc>, c: Cmd)
    requires Lawful(cl) && OnTimeline(cl, x) && cl.undo(c, cl.redo(c, x.doc)) == x.doc
    requires Absorbed(cl, Truncate(x.stack), c).None? && !cl.obsolete(c)
    ensures var y := Step(cl, Step(cl, x, PushOp(c)), UndoOp);
      && y.doc == x.doc
      && y.stack.head == x.stack.head - (if x.stack.limit > 0 && x.stack.head >= x.stack.limit then 1 else 0)
      && y.stack.history[y.stack.head..] == [c]
  {
    PushLeaves(cl, x, c);
    PushOnTimeline(cl, x, c);
    UndoGoesBack(cl, Step(cl, x, PushOp(c)));
    PlacedTimeline(cl, x, c);
    var y := Step(cl, x, PushOp(c));
    assert Leads(cl, y.stack.history[y.stack.head - 1], y.states[y.stack.head - 1], y.states[y.stack.head]);
    hide Step, Extended, Timeline, Lawful;
  }

  /** Undoing an absorbed command undoes the command that absorbed it as well. */
  lemma UndoTakesBackMerge<Cmd(!new), Doc(!new)>(cl: Client<Cmd, Doc>, x: Session<Cmd, Doc>, c: Cmd)
    requires Lawful(cl) && OnTimeline(cl, x) && cl.undo(c, cl.redo(c, x.doc)) == x.doc
    requires var m := Absorbed(cl, Truncate(x.stack), c); m.Some? && !cl.obsolete(m.value)
    ensures var y := Step(cl, Step(cl, x, PushOp(c)), UndoOp);
      x.stack.head > 0 && y.stack.head == x.stack.head - 1 && y.doc == x.states[x.stack.head - 1]
  {
    PushLeaves(cl, x, c);
    PushOnTimeline(cl, x, c);
    UndoGoesBack(cl, Step(cl, x, PushOp(c)));
  }

  // ---- The clean mark ----

  /** A stack is clean right after it was marked. */
  lemma MarkedIsClean<Cmd(!new), Doc(!new)>(cl: Client<Cmd, Doc>, x: Session<Cmd, Doc>)
    requires OnTimeline(cl, x)
    ensures var y := Step(cl, x, SetCleanOp);
      && OnTimeline(cl, y) && IsClean(y.stack) && y.cleanDoc == x.doc
      && y == Session(Stack(x.stack.history, x.stack.limit, x.stack.head, x.stack.head), x.doc, x.states, x.doc)
  {
  }

  /** Moving about the history it is clean again exactly at the index where it was marked. */
  lemma CleanExactlyAtMark<Cmd(!new), Doc(!new)>(cl: Client<Cmd, Doc>, x: Session<Cmd, Doc>, index: nat)
    requires OnTimeline(cl, x) && index <= |x.stack.history|
    ensures IsClean(Step(cl, Step(cl, x, SetCleanOp), SetHeadOp(index)).stack) <==> index == x.stack.head
  {
    MarkedIsClean(cl, x);
    SetHeadReaches(cl, Step(cl, x, SetCleanOp), index);
  }

  /** Without a mark no run makes the stack clean before it sets one; removing the mark and clearing leave none. */
  lemma {:induction false} StaysUnclean<Cmd(!new), Doc(!new)>(cl: Client<Cmd, Doc>, x: Session<Cmd, Doc>,
      ops: seq<Op<Cmd>>)
    requires Formed(x) && x.stack.clean == -1
    requires forall i :: 0 <= i < |ops| ==> !ops[i].SetCleanOp?
    ensures var y := Run(cl, x, ops); y.stack.clean == -1 && !IsClean(y.stack)
    decreases |ops|
  {
    hide Extended, Absorbed, Placed;
    if ops != [] {
      assert !ops[0].SetCleanOp?;
      assert Step(cl, x, ops[0]).stack.clean == -1;
      StaysUnclean(cl, Step(cl, x, ops[0]), ops[1..]);
    }
  }

  lemma MarkRemoved<Cmd(!new), Doc(!new)>(cl: Client<Cmd, Doc>, x: Session<Cmd, Doc>)
    requires Formed(x)
    ensures Step(cl, x, ResetCleanOp)
      == Session(Stack(x.stack.history, x.stack.limit, x.stack.head, -1), x.doc, x.states, x.cleanDoc)
    ensures Step(cl, x, ClearOp) == Session(Stack([], x.stack.limit, 0, -1), x.doc, [x.doc], x.cleanDoc)
  {
  }

  // ---- The limit ----

  /** A positive limit is the most commands the history ever holds. */
  ghost predicate WithinLimit<Cmd>(s: Stack<Cmd>) { s.limit > 0 ==> |s.history| <= s.limit }

  /** The limit is settable on an empty stack only. */
  lemma LimitSet<Cmd(!new), Doc(!new)>(cl: Client<Cmd, Doc>, x: Session<Cmd, Doc>, limit: nat)
    requires Formed(x)
    ensures Step(cl, x, SetLimitOp(limit)).stack.limit == if x.stack.history == [] then limit else x.stack.limit
    ensures var y := Step(cl, x, SetLimitOp(limit)); y == x.(stack := x.stack.(limit := y.stack.limit))
  {
  }

  lemma PushWithinLimit<Cmd(!new), Doc(!new)>(cl: Client<Cmd, Doc>, s: Stack<Cmd>, c: Cmd)
    requires s.head <= |s.history| && WithinLimit(s)
    ensures WithinLimit(Push(cl, s, c)) && Push(cl, s, c).limit == s.limit
  {
  }

  lemma {:induction false} LimitHolds<Cmd(!new), Doc(!new)>(cl: Client<Cmd, Doc>, x: Session<Cmd, Doc>,
      ops: seq<Op<Cmd>>)
    requires Formed(x) && WithinLimit(x.stack)
    ensures WithinLimit(Run(cl, x, ops).stack)
    decreases |ops|
  {
    hide Extended, Push;
    if ops != [] {
      if ops[0].PushOp? {
        PushWithinLimit(cl, x.stack, ops[0].c);
      }
      assert WithinLimit(Step(cl, x, ops[0]).stack);
      LimitHolds(cl, Step(cl, x, ops[0]), ops[1..]);
    }
  }
}
