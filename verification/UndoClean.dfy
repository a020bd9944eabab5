/** The clean mark of the undo history, and macro-commands. */
module UndoClean {
  import opened Basics
  import opened UndoTimeline

  /** The clean index points at the document that was current when the mark was set. */
  ghost predicate CleanMark<Cmd(!new), Doc(!new)>(x: Session<Cmd, Doc>)
    requires Formed(x)
  {
    x.stack.clean >= 0 ==> x.stack.clean <= |x.stack.history| && x.states[x.stack.clean] == x.cleanDoc
  }

  /** The document one command after the state the clean mark names, as `c` is pushed. */
  ghost function AfterClean<Cmd(!new), Doc(!new)>(cl: Client<Cmd, Doc>, x: Session<Cmd, Doc>, c: Cmd): Doc
    requires Formed(x) && 0 <= x.stack.clean <= |x.stack.history|
  {
    if x.stack.clean == x.stack.head then cl.redo(c, x.doc)
    else if x.stack.clean < |x.stack.history| then x.states[x.stack.clean + 1] else x.doc
  }

  /** Two things move the clean mark off its state: absorbing `c` into the command below a clean head, and
      dropping the oldest command. Both are harmless exactly when the command that comes to be counted in
      changes nothing. */
  ghost predicate SafePush<Cmd(!new), Doc(!new)>(cl: Client<Cmd, Doc>, x: Session<Cmd, Doc>, c: Cmd)
    requires Formed(x) && x.stack.clean <= |x.stack.history|
  {
    var t := Truncate(x.stack);
    match Absorbed(cl, t, c)
    case Some(m) => t.clean == t.head && !cl.obsolete(m) ==> cl.redo(c, x.doc) == x.cleanDoc
    case None =>
      Full(t) && t.clean >= 0 && !(t.clean == t.head && cl.obsolete(c)) ==> AfterClean(cl, x, c) == x.cleanDoc
  }

  ghost predicate Safe<Cmd(!new), Doc(!new)>(cl: Client<Cmd, Doc>, x: Session<Cmd, Doc>, op: Op<Cmd>)
    requires Formed(x)
  {
    op.PushOp? ==> x.stack.clean <= |x.stack.history| && SafePush(cl, x, op.c)
  }

  /** After truncation the mark is at or below the head. */
  lemma TruncatedMark<Cmd(!new), Doc(!new)>(x: Session<Cmd, Doc>)
    requires Formed(x) && -1 <= x.stack.clean <= |x.stack.history|
    ensures var t := Truncate(x.stack);
      && t.head == |t.history| == x.stack.head && -1 <= t.clean <= t.head && t.limit == x.stack.limit
      && (t.clean >= 0 ==> t.clean == x.stack.clean)
  {
  }

  /** Where the new states agree with the old ones. */
  lemma ExtendedAt<Cmd(!new), Doc(!new)>(cl: Client<Cmd, Doc>, x: Session<Cmd, Doc>, c: Cmd, i: nat)
    requires Formed(x) && x.doc == x.states[x.stack.head] && i < |Extended(cl, x, c)|
    ensures var t := Truncate(x.stack); var h := x.stack.head; var e := Extended(cl, x, c);
      match Absorbed(cl, t, c) {
        case Some(_) => |e| == h + 1 && e[i] == if i < h then x.states[i] else cl.redo(c, x.doc)
        case None =>
          if Full(t) then |e| == h + 1 && e[i] == (if i < h then x.states[i + 1] else cl.redo(c, x.doc))
          else |e| == h + 2 && e[i] == (if i <= h then x.states[i] else cl.redo(c, x.doc))
      }
  {
  }

  /** A push keeps the clean mark true exactly when it is safe. */
  lemma PushKeepsMark<Cmd(!new), Doc(!new)>(cl: Client<Cmd, Doc>, x: Session<Cmd, Doc>, c: Cmd)
    requires OnTimeline(cl, x) && CleanMark(x)
    ensures Formed(x) && (CleanMark(Step(cl, x, PushOp(c))) <==> SafePush(cl, x, c))
  {
    TruncatedMark(x);
    var t := Truncate(x.stack);
    if t.clean >= 0 && t.clean < |Extended(cl, x, c)| {
      ExtendedAt(cl, x, c, t.clean);
    }
    if |Extended(cl, x, c)| > 0 {
      ExtendedAt(cl, x, c, 0);
    }
    hide Extended, Truncate, Timeline;
  }

  lemma StepKeepsMark<Cmd(!new), Doc(!new)>(cl: Client<Cmd, Doc>, x: Session<Cmd, Doc>, op: Op<Cmd>)
    requires OnTimeline(cl, x) && CleanMark(x)
    ensures Formed(x) && (CleanMark(Step(cl, x, op)) <==> Safe(cl, x, op))
  {
    if op.PushOp? {
      PushKeepsMark(cl, x, op.c);
    }
  }

  /** Without a limit, and unless the command below a clean head absorbs the new one, a push is safe. */
  lemma UsuallySafe<Cmd(!new), Doc(!new)>(cl: Client<Cmd, Doc>, x: Session<Cmd, Doc>, c: Cmd)
    requires OnTimeline(cl, x) && CleanMark(x) && x.stack.limit == 0
    requires x.stack.clean == x.stack.head ==> Absorbed(cl, Truncate(x.stack), c).None?
    ensures Formed(x) && x.stack.clean <= |x.stack.history| && SafePush(cl, x, c)
  {
    TruncatedMark(x);
  }

  ghost predicate AllSafe<Cmd(!new), Doc(!new)>(cl: Client<Cmd, Doc>, x: Session<Cmd, Doc>, ops: seq<Op<Cmd>>)
    requires Formed(x)
    decreases |ops|
  {
    ops == [] || (Safe(cl, x, ops[0]) && AllSafe(cl, Step(cl, x, ops[0]), ops[1..]))
  }

  /** Over any run of safe operations a clean stack has the document of the last clean mark. */
  lemma {:induction false} CleanMeansClean<Cmd(!new), Doc(!new)>(cl: Client<Cmd, Doc>, x: Session<Cmd, Doc>,
      ops: seq<Op<Cmd>>)
    requires Lawful(cl) && OnTimeline(cl, x) && CleanMark(x) && AllReversible(cl, x, ops) && AllSafe(cl, x, ops)
    ensures Formed(x)
    ensures var y := Run(cl, x, ops); CleanMark(y) && (IsClean(y.stack) ==> y.doc == y.cleanDoc)
    decreases |ops|
  {
    if ops == [] {
    } else {
      StepOnTimeline(cl, x, ops[0]);
      StepKeepsMark(cl, x, ops[0]);
      hide OnTimeline, CleanMark, Lawful;
      CleanMeansClean(cl, Step(cl, x, ops[0]), ops[1..]);
    }
  }

  /** A caller can see this before an operation: no undo limit, and no merge into the command below a clean head. */
  ghost predicate Plain<Cmd(!new), Doc(!new)>(cl: Client<Cmd, Doc>, x: Session<Cmd, Doc>, op: Op<Cmd>)
    requires Formed(x)
  {
    op.PushOp? ==>
      x.stack.limit == 0 && (x.stack.clean == x.stack.head ==> Absorbed(cl, Truncate(x.stack), op.c).None?)
  }

  ghost predicate AllPlain<Cmd(!new), Doc(!new)>(cl: Client<Cmd, Doc>, x: Session<Cmd, Doc>, ops: seq<Op<Cmd>>)
    requires Formed(x)
    decreases |ops|
  {
    ops == [] || (Plain(cl, x, ops[0]) && AllPlain(cl, Step(cl, x, ops[0]), ops[1..]))
  }

  lemma {:induction false} PlainRunsAreSafe<Cmd(!new), Doc(!new)>(cl: Client<Cmd, Doc>, x: Session<Cmd, Doc>,
      ops: seq<Op<Cmd>>)
    requires Lawful(cl) && OnTimeline(cl, x) && CleanMark(x) && AllReversible(cl, x, ops) && AllPlain(cl, x, ops)
    ensures Formed(x) && AllSafe(cl, x, ops)
    decreases |ops|
  {
    if ops != [] {
      StepOnTimeline(cl, x, ops[0]);
      if ops[0].PushOp? {
        UsuallySafe(cl, x, ops[0].c);
      }
      StepKeepsMark(cl, x, ops[0]);
      hide OnTimeline, CleanMark, Lawful, SafePush;
      PlainRunsAreSafe(cl, Step(cl, x, ops[0]), ops[1..]);
    }
  }

  /** On every run without a limit and without a merge into the command below a clean head, a clean stack has the
      document of the last clean mark. */
  lemma CleanWithoutLimit<Cmd(!new), Doc(!new)>(cl: Client<Cmd, Doc>, x: Session<Cmd, Doc>, ops: seq<Op<Cmd>>)
    requires Lawful(cl) && OnTimeline(cl, x) && CleanMark(x) && AllReversible(cl, x, ops) && AllPlain(cl, x, ops)
    ensures Formed(x)
    ensures var y := Run(cl, x, ops); IsClean(y.stack) ==> y.doc == y.cleanDoc
  {
    PlainRunsAreSafe(cl, x, ops);
    CleanMeansClean(cl, x, ops);
  }

  // ---- Both conditions are needed ----

  /** Commands that add a number; with `id` zero they merge by adding up. */
  function Adder(id: int): Client<int, int>
  {
    Client((c, d) => d + c, (c, d) => d - c, c => id, (a, b) => Some(a + b), c => c == 0)
  }

  lemma AdderLawful(id: int)
    ensures Lawful(Adder(id)) && forall c, d :: Adder(id).undo(c, Adder(id).redo(c, d)) == d
  {
  }

  lemma Stepwise<Cmd(!new), Doc(!new)>(cl: Client<Cmd, Doc>, x: Session<Cmd, Doc>, op: Op<Cmd>, ops: seq<Op<Cmd>>)
    requires Formed(x)
    ensures Run(cl, x, [op] + ops) == Run(cl, Step(cl, x, op), ops)
    ensures ops == [] ==> Run(cl, x, [op] + ops) == Step(cl, x, op)
  {
    assert ([op] + ops)[1..] == ops;
  }

  /** The steps the runs below take, field by field. */
  lemma StepFields(cl: Client<int, int>, x: Session<int, int>, op: Op<int>)
    requires Formed(x)
    ensures var y := Step(cl, x, op);
      match op {
        case PushOp(c) => y.stack == Push(cl, x.stack, c) && y.doc == cl.redo(c, x.doc) && y.cleanDoc == x.cleanDoc
        case SetCleanOp => y.stack == x.stack.(clean := x.stack.head) && y.doc == x.doc == y.cleanDoc
        case SetLimitOp(n) => x.stack.history == [] ==> y == x.(stack := x.stack.(limit := n))
        case _ => true
      }
  {
    hide Push, Extended;
  }

  lemma FirstPush(id: int, limit: nat)
    ensures Push(Adder(id), Stack([], limit, 0, -1), 1) == Stack([1], limit, 1, -1)
  {
  }

  lemma MergingPush()
    ensures Push(Adder(0), Stack([1], 0, 1, 1), 2) == Stack([3], 0, 1, 1)
  {
    assert Absorbed(Adder(0), Stack([1], 0, 1, 1), 2) == Some(3);
  }

  lemma LimitedPush()
    ensures Push(Adder(-1), Stack([1], 1, 1, 1), 2) == Stack([2], 1, 1, 1)
  {
    assert Absorbed(Adder(-1), Stack([1], 1, 1, 1), 2) == None;
  }

  /** A merge into the command below a clean head leaves the stack clean over a changed document. */
  lemma MergeLosesMark()
    ensures var y := Run(Adder(0), Fresh<int, int>(0), [PushOp(1)] + ([SetCleanOp] + ([PushOp(2)] + [])));
      IsClean(y.stack) && y.cleanDoc == 1 && y.doc == 3
  {
    FirstPush(0, 0);
    MergingPush();
    hide Run, Push, Step;
    var cl, x := Adder(0), Fresh<int, int>(0);
    var x1 := Step(cl, x, PushOp(1));
    var x2 := Step(cl, x1, SetCleanOp);
    Stepwise(cl, x, PushOp(1), [SetCleanOp] + ([PushOp(2)] + []));
    Stepwise(cl, x1, SetCleanOp, [PushOp(2)] + []);
    Stepwise(cl, x2, PushOp(2), []);
    StepFields(cl, x, PushOp(1));
    StepFields(cl, x1, SetCleanOp);
    StepFields(cl, x2, PushOp(2));
  }

  /** So does a push at the limit, which drops the oldest command without shifting the mark. */
  lemma LimitLosesMark()
    ensures var y := Run(Adder(-1), Fresh<int, int>(0),
                         [SetLimitOp(1)] + ([PushOp(1)] + ([SetCleanOp] + ([PushOp(2)] + []))));
      IsClean(y.stack) && y.cleanDoc == 1 && y.doc == 3
  {
    FirstPush(-1, 1);
    LimitedPush();
    hide Run, Push, Step;
    var cl, x := Adder(-1), Fresh<int, int>(0);
    var x1 := Step(cl, x, SetLimitOp(1));
    var x2 := Step(cl, x1, PushOp(1));
    var x3 := Step(cl, x2, SetCleanOp);
    Stepwise(cl, x, SetLimitOp(1), [PushOp(1)] + ([SetCleanOp] + ([PushOp(2)] + [])));
    Stepwise(cl, x1, PushOp(1), [SetCleanOp] + ([PushOp(2)] + []));
    Stepwise(cl, x2, SetCleanOp, [PushOp(2)] + []);
    Stepwise(cl, x3, PushOp(2), []);
    StepFields(cl, x, SetLimitOp(1));
    StepFields(cl, x1, PushOp(1));
    StepFields(cl, x2, SetCleanOp);
    StepFields(cl, x3, PushOp(2));
  }

  // ---- Macro-commands ----

  /** A command that is a leaf, or the list of its children. */
  datatype Macro<Leaf> = Single(leaf: Leaf) | Many(children: seq<Macro<Leaf>>)

  function Redo<Leaf(!new), Doc(!new)>(cl: Client<Leaf, Doc>, m: Macro<Leaf>, d: Doc): Doc
    decreases m, 0
  {
    match m
    case Single(leaf) => cl.redo(leaf, d)
    case Many(children) => RedoAll(cl, children, d)
  }

  /** Children are redone in order. */
  function RedoAll<Leaf(!new), Doc(!new)>(cl: Client<Leaf, Doc>, ms: seq<Macro<Leaf>>, d: Doc): Doc
    decreases ms, 1
  {
    if ms == [] then d else RedoAll(cl, ms[1..], Redo(cl, ms[0], d))
  }

  function Undo<Leaf(!new), Doc(!new)>(cl: Client<Leaf, Doc>, m: Macro<Leaf>, d: Doc): Doc
    decreases m, 0
  {
    match m
    case Single(leaf) => cl.undo(leaf, d)
    case Many(children) => UndoAll(cl, children, d)
  }

  /** Children are undone in reverse order. */
  function UndoAll<Leaf(!new), Doc(!new)>(cl: Client<Leaf, Doc>, ms: seq<Macro<Leaf>>, d: Doc): Doc
    decreases ms, 1
  {
    if ms == [] then d else Undo(cl, ms[0], UndoAll(cl, ms[1..], d))
  }

  /** Every leaf is reversible on the document it meets. */
  ghost predicate ReversibleOn<Leaf(!new), Doc(!new)>(cl: Client<Leaf, Doc>, m: Macro<Leaf>, d: Doc)
    decreases m, 0
  {
    match m
    case Single(leaf) => cl.undo(leaf, cl.redo(leaf, d)) == d
    case Many(children) => ReversibleAllOn(cl, children, d)
  }

  ghost predicate ReversibleAllOn<Leaf(!new), Doc(!new)>(cl: Client<Leaf, Doc>, ms: seq<Macro<Leaf>>, d: Doc)
    decreases ms, 1
  {
    ms == [] || (ReversibleOn(cl, ms[0], d) && ReversibleAllOn(cl, ms[1..], Redo(cl, ms[0], d)))
  }

  /** A macro-command of reversible leaves is reversible, however deep the tree. */
  lemma {:induction false} MacroInverts<Leaf(!new), Doc(!new)>(cl: Client<Leaf, Doc>, m: Macro<Leaf>, d: Doc)
    requires ReversibleOn(cl, m, d)
    ensures Undo(cl, m, Redo(cl, m, d)) == d
    decreases m, 0
  {
    match m
    case Single(_) =>
    case Many(children) => AllInvert(cl, children, d);
  }

  lemma {:induction false} AllInvert<Leaf(!new), Doc(!new)>(cl: Client<Leaf, Doc>, ms: seq<Macro<Leaf>>, d: Doc)
    requires ReversibleAllOn(cl, ms, d)
    ensures UndoAll(cl, ms, RedoAll(cl, ms, d)) == d
    decreases ms, 1
  {
    if ms != [] {
      AllInvert(cl, ms[1..], Redo(cl, ms[0], d));
      MacroInverts(cl, ms[0], d);
    }
  }
}
