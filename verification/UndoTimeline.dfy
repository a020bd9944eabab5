/** The undo history as a value, and what every run of it keeps. */
module UndoTimeline {
  import opened Basics

  /** What a user's command type provides: its effect on the document, its merge identifier, its attempt to
      absorb the next command, and whether it has become obsolete. */
  datatype Client<!Cmd(!new), !Doc(!new)> = Client(
    redo: (Cmd, Doc) -> Doc,
    undo: (Cmd, Doc) -> Doc,
    mergeId: Cmd -> int,
    merge: (Cmd, Cmd) -> Option<Cmd>,
    obsolete: Cmd -> bool)

  /** The contract of merging and of obsolescence: a merged command redoes both commands in order and undoes
      them in reverse order, and an obsolete command does nothing. */
  ghost predicate Lawful<Cmd(!new), Doc(!new)>(cl: Client<Cmd, Doc>)
  {
    && (forall a, b, d :: cl.merge(a, b).Some? ==> cl.redo(cl.merge(a, b).value, d) == cl.redo(b, cl.redo(a, d)))
    && (forall a, b, d :: cl.merge(a, b).Some? ==> cl.undo(cl.merge(a, b).value, d) == cl.undo(a, cl.undo(b, d)))
    && (forall c, d :: cl.obsolete(c) ==> cl.redo(c, d) == d)
  }

  /** The stack's fields; a clean index of -1 means that no clean state is reachable. */
  datatype Stack<Cmd> = Stack(history: seq<Cmd>, limit: nat, head: nat, clean: int)

  predicate IsClean<Cmd>(s: Stack<Cmd>) { s.head == s.clean }

  predicate CanUndo<Cmd>(s: Stack<Cmd>) { s.head > 0 }

  predicate CanRedo<Cmd>(s: Stack<Cmd>) { s.head < |s.history| }

  // ---- Pushing ----

  /** Commands past the head are dropped, and with them a clean mark beyond it. */
  function Truncate<Cmd>(s: Stack<Cmd>): Stack<Cmd>
    requires s.head <= |s.history|
  {
    if CanRedo(s) then s.(history := s.history[..s.head], clean := if s.head < s.clean then -1 else s.clean) else s
  }

  /** The command at the head absorbs `c`. */
  function Absorbed<Cmd(!new), Doc(!new)>(cl: Client<Cmd, Doc>, s: Stack<Cmd>, c: Cmd): Option<Cmd>
    requires s.head == |s.history|
  {
    if s.head > 0 && cl.mergeId(c) != -1 && cl.mergeId(s.history[s.head - 1]) == cl.mergeId(c)
    then cl.merge(s.history[s.head - 1], c) else None
  }

  /** The limit makes room by dropping the oldest command. */
  predicate Full<Cmd>(s: Stack<Cmd>) { s.limit > 0 && |s.history| >= s.limit }

  function Placed<Cmd(!new), Doc(!new)>(cl: Client<Cmd, Doc>, s: Stack<Cmd>, c: Cmd): (r: seq<Cmd>)
    requires s.head == |s.history|
    ensures |r| > 0
  {
    match Absorbed(cl, s, c)
    case Some(m) => s.history[..s.head - 1] + [m]
    case None => (if Full(s) then s.history[1..] else s.history) + [c]
  }

  /** An obsolete command at the top is dropped at once. */
  function Settle<Cmd(!new), Doc(!new)>(cl: Client<Cmd, Doc>, history: seq<Cmd>, limit: nat, clean: int): Stack<Cmd>
    requires |history| > 0
  {
    var n := |history|;
    if cl.obsolete(history[n - 1])
    then Stack(history[..n - 1], limit, n - 1, if clean >= n then -1 else clean)
    else Stack(history, limit, n, clean)
  }

  function Push<Cmd(!new), Doc(!new)>(cl: Client<Cmd, Doc>, s: Stack<Cmd>, c: Cmd): Stack<Cmd>
    requires s.head <= |s.history|
  {
    var t := Truncate(s);
    Settle(cl, Placed(cl, t, c), s.limit, t.clean)
  }

  // ---- Sessions: a stack, its document and the document's past ----

  datatype Session<Cmd, Doc> = Session(stack: Stack<Cmd>, doc: Doc, states: seq<Doc>, cleanDoc: Doc)

  datatype Op<Cmd> = PushOp(c: Cmd) | UndoOp | RedoOp | SetHeadOp(index: nat) | SetCleanOp | ResetCleanOp
                   | ClearOp | SetLimitOp(limit: nat)

  function Clip(index: nat, n: nat): nat { if index > n then n else index }

  /** Undoing or redoing until the head is at `index`. */
  function MoveHead<Cmd(!new), Doc(!new)>(cl: Client<Cmd, Doc>, history: seq<Cmd>, head: nat, index: nat, doc: Doc): Doc
    requires head <= |history| && index <= |history|
    decreases if head < index then index - head else head - index
  {
    if head == index then doc
    else if index < head then MoveHead(cl, history, head - 1, index, cl.undo(history[head - 1], doc))
    else MoveHead(cl, history, head + 1, index, cl.redo(history[head], doc))
  }

  predicate Formed<Cmd, Doc>(x: Session<Cmd, Doc>)
  {
    x.stack.head <= |x.stack.history| && |x.states| == |x.stack.history| + 1
  }

  /** The states with the pushed command on top, before an obsolete top is dropped: those up to the head, less
      the ones of commands that are merged or dropped, and the new one. */
  function Extended<Cmd(!new), Doc(!new)>(cl: Client<Cmd, Doc>, x: Session<Cmd, Doc>, c: Cmd): (r: seq<Doc>)
    requires Formed(x)
    ensures |r| == |Placed(cl, Truncate(x.stack), c)| + 1
  {
    var h := x.stack.head;
    match Absorbed(cl, Truncate(x.stack), c)
    case Some(_) => x.states[..h] + [cl.redo(c, x.doc)]
    case None => (if Full(Truncate(x.stack)) then x.states[1..h + 1] else x.states[..h + 1]) + [cl.redo(c, x.doc)]
  }

  function Step<Cmd(!new), Doc(!new)>(cl: Client<Cmd, Doc>, x: Session<Cmd, Doc>, op: Op<Cmd>): (r: Session<Cmd, Doc>)
    requires Formed(x)
    ensures Formed(r)
  {
    var s := x.stack;
    match op
    case PushOp(c) => 
      var t := Push(cl, s, c);
      x.(stack := t, doc := cl.redo(c, x.doc), states := Extended(cl, x, c)[..|t.history| + 1])
    case UndoOp =>
      if CanUndo(s) then x.(stack := s.(head := s.head - 1), doc := cl.undo(s.history[s.head - 1], x.doc)) else x
    case RedoOp =>
      if CanRedo(s) then x.(stack := s.(head := s.head + 1), doc := cl.redo(s.history[s.head], x.doc)) else x
    case SetHeadOp(index) =>
      x.(stack := s.(head := Clip(index, |s.history|)),
         doc := MoveHead(cl, s.history, s.head, Clip(index, |s.history|), x.doc))
    case SetCleanOp => x.(stack := s.(clean := s.head), cleanDoc := x.doc)
    case ResetCleanOp => x.(stack := s.(clean := -1))
    case ClearOp => x.(stack := Stack([], s.limit, 0, -1), states := [x.doc])
    case SetLimitOp(limit) => if s.history == [] then x.(stack := s.(limit := limit)) else x
  }

  // ---- The timeline ----

  /** Command `i` leads from state `i` to state `i + 1` and back. */
  ghost predicate Leads<Cmd(!new), Doc(!new)>(cl: Client<Cmd, Doc>, c: Cmd, before: Doc, after: Doc)
  {
    cl.redo(c, before) == after && cl.undo(c, after) == before
  }

  ghost predicate Timeline<Cmd(!new), Doc(!new)>(cl: Client<Cmd, Doc>, history: seq<Cmd>, states: seq<Doc>)
  {
    && |states| == |history| + 1
    && forall i :: 0 <= i < |history| ==> Leads(cl, history[i], states[i], states[i + 1])
  }

  ghost predicate OnTimeline<Cmd(!new), Doc(!new)>(cl: Client<Cmd, Doc>, x: Session<Cmd, Doc>)
  {
    && Formed(x) && Timeline(cl, x.stack.history, x.states) && x.doc == x.states[x.stack.head]
    && -1 <= x.stack.clean
  }

  /** The one thing asked of a pushed command: undoing it now gives the document back. */
  ghost predicate Reversible<Cmd(!new), Doc(!new)>(cl: Client<Cmd, Doc>, op: Op<Cmd>, doc: Doc)
  {
    op.PushOp? ==> cl.undo(op.c, cl.redo(op.c, doc)) == doc
  }

  lemma {:induction false} MoveHeadFollows<Cmd(!new), Doc(!new)>(
      cl: Client<Cmd, Doc>, history: seq<Cmd>, states: seq<Doc>, head: nat, index: nat)
    requires Timeline(cl, history, states) && head <= |history| && index <= |history|
    ensures MoveHead(cl, history, head, index, states[head]) == states[index]
    decreases if head < index then index - head else head - index
  {
    if index < head {
      assert Leads(cl, history[head - 1], states[head - 1], states[head]);
      MoveHeadFollows(cl, history, states, head - 1, index);
    } else if head < index {
      assert Leads(cl, history[head], states[head], states[head + 1]);
      MoveHeadFollows(cl, history, states, head + 1, index);
    }
  }

  lemma TimelineSlice<Cmd(!new), Doc(!new)>(cl: Client<Cmd, Doc>, history: seq<Cmd>, states: seq<Doc>, lo: nat, hi: nat)
    requires Timeline(cl, history, states) && lo <= hi <= |history|
    ensures Timeline(cl, history[lo..hi], states[lo..hi + 1])
  {
    forall i | 0 <= i < hi - lo
      ensures Leads(cl, history[lo..hi][i], states[lo..hi + 1][i], states[lo..hi + 1][i + 1])
    {
      assert Leads(cl, history[lo + i], states[lo + i], states[lo + i + 1]);
    }
  }

  lemma TimelineGrows<Cmd(!new), Doc(!new)>(cl: Client<Cmd, Doc>, history: seq<Cmd>, states: seq<Doc>, c: Cmd, d: Doc)
    requires Timeline(cl, history, states) && Leads(cl, c, states[|history|], d)
    ensures Timeline(cl, history + [c], states + [d])
  {
    var h, s := history + [c], states + [d];
    forall i | 0 <= i < |h| ensures Leads(cl, h[i], s[i], s[i + 1]) {
      if i < |history| {
        assert Leads(cl, history[i], states[i], states[i + 1]);
      }
    }
  }

  lemma PlacedTimeline<Cmd(!new), Doc(!new)>(cl: Client<Cmd, Doc>, x: Session<Cmd, Doc>, c: Cmd)
    requires Lawful(cl) && OnTimeline(cl, x) && cl.undo(c, cl.redo(c, x.doc)) == x.doc
    ensures Timeline(cl, Placed(cl, Truncate(x.stack), c), Extended(cl, x, c))
    ensures Extended(cl, x, c)[|Placed(cl, Truncate(x.stack), c)|] == cl.redo(c, x.doc)
  {
    var s, h, t := x.stack, x.stack.head, Truncate(x.stack);
    assert t.history == s.history[0..h] && x.states[..h + 1] == x.states[0..h + 1];
    match Absorbed(cl, t, c)
    case Some(m) =>
      var p := s.history[h - 1];
      assert Leads(cl, p, x.states[h - 1], x.states[h]);
      TimelineSlice(cl, s.history, x.states, 0, h - 1);
      assert x.states[0..h] == x.states[..h] && t.history[..h - 1] == s.history[0..h - 1];
      assert Leads(cl, m, x.states[h - 1], cl.redo(c, x.doc));
      TimelineGrows(cl, s.history[0..h - 1], x.states[0..h], m, cl.redo(c, x.doc));
    case None =>
      var lo := if Full(t) then 1 else 0;
      TimelineSlice(cl, s.history, x.states, lo, h);
      assert t.history[lo..] == s.history[lo..h];
      TimelineGrows(cl, s.history[lo..h], x.states[lo..h + 1], c, cl.redo(c, x.doc));
      assert t.history[0..] == t.history;
  }

  /** Pushing keeps the timeline through truncation, merging, the limit and obsolescence. */
  lemma PushOnTimeline<Cmd(!new), Doc(!new)>(cl: Client<Cmd, Doc>, x: Session<Cmd, Doc>, c: Cmd)
    requires Lawful(cl) && OnTimeline(cl, x) && cl.undo(c, cl.redo(c, x.doc)) == x.doc
    ensures OnTimeline(cl, Step(cl, x, PushOp(c)))
  {
    PlacedTimeline(cl, x, c);
    TruncateClean(x.stack);
    var placed, ext := Placed(cl, Truncate(x.stack), c), Extended(cl, x, c);
    SettledTimeline(cl, placed, ext, x.stack.limit, Truncate(x.stack).clean);
    hide Truncate, Absorbed, Placed, Extended, Lawful, Timeline;
  }

  /** Dropping an obsolete top gives up no state but a repeated one. */
  lemma SettledTimeline<Cmd(!new), Doc(!new)>(cl: Client<Cmd, Doc>, placed: seq<Cmd>, ext: seq<Doc>, limit: nat,
      clean: int)
    requires Lawful(cl) && Timeline(cl, placed, ext) && |placed| > 0
    ensures var t := Settle(cl, placed, limit, clean);
      Timeline(cl, t.history, ext[..|t.history| + 1]) && ext[|t.history|] == ext[|placed|]
  {
    var n := |placed|;
    assert Leads(cl, placed[n - 1], ext[n - 1], ext[n]);
    TimelineSlice(cl, placed, ext, 0, n - 1);
    assert placed[0..n - 1] == placed[..n - 1] && ext[0..n - 1 + 1] == ext[..n];
    assert ext[..n + 1] == ext;
  }

  lemma TruncateClean<Cmd>(s: Stack<Cmd>)
    requires s.head <= |s.history| && -1 <= s.clean
    ensures -1 <= Truncate(s).clean
  {
  }

  /** Every operation keeps the document on the timeline. */
  lemma StepOnTimeline<Cmd(!new), Doc(!new)>(cl: Client<Cmd, Doc>, x: Session<Cmd, Doc>, op: Op<Cmd>)
    requires Lawful(cl) && OnTimeline(cl, x) && Reversible(cl, op, x.doc)
    ensures OnTimeline(cl, Step(cl, x, op))
  {
    var s := x.stack;
    match op
    case PushOp(c) => PushOnTimeline(cl, x, c);
    case UndoOp => assert CanUndo(s) ==> Leads(cl, s.history[s.head - 1], x.states[s.head - 1], x.states[s.head]);
    case RedoOp => assert CanRedo(s) ==> Leads(cl, s.history[s.head], x.states[s.head], x.states[s.head + 1]);
    case SetHeadOp(index) => MoveHeadFollows(cl, s.history, x.states, s.head, Clip(index, |s.history|));
    case _ =>
  }

  // ---- Whole runs ----

  /** A new stack on a document. */
  function Fresh<Cmd, Doc>(doc: Doc): Session<Cmd, Doc> { Session(Stack([], 0, 0, -1), doc, [doc], doc) }

  function Run<Cmd(!new), Doc(!new)>(
      cl: Client<Cmd, Doc>, x: Session<Cmd, Doc>, ops: seq<Op<Cmd>>): (r: Session<Cmd, Doc>)
    requires Formed(x)
    ensures Formed(r)
    decreases |ops|
  {
    if ops == [] then x else Run(cl, Step(cl, x, ops[0]), ops[1..])
  }

  /** Each command of the run is reversible where it is pushed. */
  ghost predicate AllReversible<Cmd(!new), Doc(!new)>(cl: Client<Cmd, Doc>, x: Session<Cmd, Doc>, ops: seq<Op<Cmd>>)
    requires Formed(x)
    decreases |ops|
  {
    ops == [] || (Reversible(cl, ops[0], x.doc) && AllReversible(cl, Step(cl, x, ops[0]), ops[1..]))
  }

  /** Over any run there is a sequence of states between which the commands move, and the document is the state
      at the head. */
  lemma {:induction false} RunOnTimeline<Cmd(!new), Doc(!new)>(cl: Client<Cmd, Doc>, x: Session<Cmd, Doc>,
      ops: seq<Op<Cmd>>)
    requires Lawful(cl) && OnTimeline(cl, x) && AllReversible(cl, x, ops)
    ensures Formed(x) && OnTimeline(cl, Run(cl, x, ops))
    decreases |ops|
  {
    hide Lawful;
    if ops != [] {
      StepOnTimeline(cl, x, ops[0]);
      hide OnTimeline;
      RunOnTimeline(cl, Step(cl, x, ops[0]), ops[1..]);
    }
  }
}
