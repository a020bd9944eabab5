/** The undo stack and the undo group as objects, with the callbacks they fire. */
module UndoStacks {
  import opened Basics
  import opened UndoTimeline

  /** What a listener that only stores callback values holds. */
  datatype Seen = Seen(head: nat, isClean: bool, canUndo: bool, canRedo: bool)

  /** What the stack's observers answer. */
  function Observed<Cmd>(s: Stack<Cmd>): Seen
  {
    Seen(s.head, IsClean(s), CanUndo(s), CanRedo(s))
  }

  /** What a listener sees with no active stack. */
  const NOTHING := Seen(0, false, false, false)

  /** Callbacks fire only for values that differ from the snapshot. */
  function Notify(l: Seen, before: Seen, after: Seen): Seen
  {
    Seen(if after.head != before.head then after.head else l.head,
         if after.isClean != before.isClean then after.isClean else l.isClean,
         if after.canUndo != before.canUndo then after.canUndo else l.canUndo,
         if after.canRedo != before.canRedo then after.canRedo else l.canRedo)
  }

  /** A push changes the stack, the document and the states, and nothing else. */
  lemma PushParts<Cmd(!new), Doc(!new)>(cl: Client<Cmd, Doc>, x: Session<Cmd, Doc>, c: Cmd)
    requires Formed(x)
    ensures var y := Step(cl, x, PushOp(c));
      y == Session(Push(cl, x.stack, c), cl.redo(c, x.doc), y.states, x.cleanDoc)
  {
    hide Push, Extended;
  }

  class UndoStack<Cmd(!new), Doc(!new)> {
    const cl: Client<Cmd, Doc>
    var history: seq<Cmd>
    var undoLimit: nat
    var head: nat
    var cleanIndex: int
    var lastSnapshot: Seen
    var listener: Seen
    var doc: Doc
    ghost var states: seq<Doc>
    ghost var cleanDoc: Doc

    function Fields(): Stack<Cmd>
      reads this
    {
      Stack(history, undoLimit, head, cleanIndex)
    }

    ghost function Now(): Session<Cmd, Doc>
      reads this
    {
      Session(Fields(), doc, states, cleanDoc)
    }

    /** The listener agrees with the observers. */
    ghost predicate Valid()
      reads this
    {
      Formed(Now()) && listener == Observed(Fields())
    }

    constructor (client: Client<Cmd, Doc>, document: Doc)
      ensures Valid() && cl == client && Now() == Fresh(document)
      ensures history == [] && undoLimit == head == 0 && cleanIndex == -1 && doc == document
    {
      cl, history, undoLimit, head, cleanIndex := client, [], 0, 0, -1;
      lastSnapshot, listener, doc := NOTHING, NOTHING, document;
      states, cleanDoc := [document], document;
    }

    method Snapshot()
      modifies this`lastSnapshot
      ensures lastSnapshot == Observed(Fields())
    {
      lastSnapshot := Observed(Fields());
    }

    /** One callback for each value that has changed since the snapshot, and none for the others. */
    method CheckStateTransitions()
      modifies this`listener
      ensures listener == Notify(old(listener), lastSnapshot, Observed(Fields()))
      ensures listener.head == if head != lastSnapshot.head then head else old(listener.head)
      ensures var now := head == cleanIndex;
        listener.isClean == if now != lastSnapshot.isClean then now else old(listener.isClean)
      ensures var now := head > 0;
        listener.canUndo == if now != lastSnapshot.canUndo then now else old(listener.canUndo)
      ensures var now := head < |history|;
        listener.canRedo == if now != lastSnapshot.canRedo then now else old(listener.canRedo)
      ensures old(listener) == lastSnapshot ==> listener == Observed(Fields())
    {
      var now, l := Observed(Fields()), listener;
      if now.head != lastSnapshot.head {
        l := l.(head := now.head);
      }
      if now.isClean != lastSnapshot.isClean {
        l := l.(isClean := now.isClean);
      }
      if now.canUndo != lastSnapshot.canUndo {
        l := l.(canUndo := now.canUndo);
      }
      if now.canRedo != lastSnapshot.canRedo {
        l := l.(canRedo := now.canRedo);
      }
      listener := l;
    }

    /** Drops the commands after the head, and a clean mark that lies among them. */
    method DropRedoable()
      requires head <= |history|
      modifies this`history, this`cleanIndex
      ensures Fields() == Truncate(old(Fields())) && head == |history|
    {
      if CanRedo(Fields()) {
        history := history[..head];
        if head < cleanIndex {
          cleanIndex := -1;
        }
      }
    }

    /** Merges the command into the one before it, or puts it on top and keeps to the limit. */
    method Place(c: Cmd)
      requires head == |history|
      modifies this`history
      ensures history == Placed(cl, old(Fields()), c)
    {
      var merged := false;
      if CanUndo(Fields()) && cl.mergeId(c) != -1 && cl.mergeId(history[head - 1]) == cl.mergeId(c) {
        var m := cl.merge(history[head - 1], c);
        if m.Some? {
          merged := true;
          history := history[..head - 1] + [m.value];
        }
      }
      if !merged {
        if undoLimit > 0 && |history| >= undoLimit {
          history := history[1..];
        }
        history := history + [c];
      }
    }

    /** Drops the top command if it is obsolete. */
    method DropObsolete()
      requires |history| > 0
      modifies this`history, this`cleanIndex, this`head
      ensures Fields() == Settle(cl, old(history), undoLimit, old(cleanIndex))
    {
      if cl.obsolete(history[|history| - 1]) {
        if cleanIndex >= |history| {
          cleanIndex := -1;
        }
        history := history[..|history| - 1];
      }
      head := |history|;
    }

    method Record(c: Cmd)
      requires head <= |history|
      modifies this`history, this`cleanIndex, this`head
      ensures Fields() == UndoTimeline.Push(cl, old(Fields()), c)
    {
      hide Truncate, Placed, Settle;
      DropRedoable();
      Place(c);
      DropObsolete();
    }

    /** Records a command that has just been executed on the document of session `x`. */
    method Commit(c: Cmd, ghost x: Session<Cmd, Doc>)
      requires Formed(x) && Fields() == x.stack && states == x.states && cleanDoc == x.cleanDoc
      requires doc == cl.redo(c, x.doc)
      modifies this`history, this`cleanIndex, this`head, this`states
      ensures Now() == Step(cl, x, PushOp(c))
    {
      PushParts(cl, x, c);
      hide UndoTimeline.Push, Step;
      Record(c);
      states := Step(cl, x, PushOp(c)).states;
    }

    /** Executes a command and records it: later commands are dropped, the command may be absorbed by the one
        before it, the limit may drop the oldest, and an obsolete result is dropped at once. */
    method Push(c: Cmd)
      requires Valid()
      modifies this
      ensures Valid() && Now() == Step(cl, old(Now()), PushOp(c))
    {
      hide Step, Notify, Observed;
      ghost var x := Now();
      doc := cl.redo(c, doc);
      Snapshot();
      Commit(c, x);
      CheckStateTransitions();
    }

    method Clear()
      requires Valid()
      modifies this
      ensures Valid() && Now() == Step(cl, old(Now()), ClearOp)
      ensures history == [] && head == 0 && cleanIndex == -1 && doc == old(doc) && undoLimit == old(undoLimit)
    {
      Snapshot();
      history, head, cleanIndex := [], 0, -1;
      states := [doc];
      CheckStateTransitions();
    }

    method UndoInternal()
      requires 0 < head <= |history|
      modifies this`head, this`doc
      ensures head == old(head) - 1 && doc == cl.undo(history[head], old(doc))
    {
      head := head - 1;
      doc := cl.undo(history[head], doc);
    }

    method RedoInternal()
      requires head < |history|
      modifies this`head, this`doc
      ensures head == old(head) + 1 && doc == cl.redo(history[old(head)], old(doc))
    {
      doc := cl.redo(history[head], doc);
      head := head + 1;
    }

    /** Undoes the command before the head, if there is one. */
    method Undo()
      requires Valid()
      modifies this
      ensures Valid() && Now() == Step(cl, old(Now()), UndoOp)
      ensures history == old(history) && undoLimit == old(undoLimit) && cleanIndex == old(cleanIndex)
      ensures old(head) == 0 ==> head == 0 && doc == old(doc)
      ensures old(head) > 0 ==> head == old(head) - 1 && doc == cl.undo(history[head], old(doc))
    {
      if CanUndo(Fields()) {
        Snapshot();
        UndoInternal();
        CheckStateTransitions();
      }
    }

    /** Redoes the command at the head, if there is one. */
    method Redo()
      requires Valid()
      modifies this
      ensures Valid() && Now() == Step(cl, old(Now()), RedoOp)
      ensures history == old(history) && undoLimit == old(undoLimit) && cleanIndex == old(cleanIndex)
      ensures old(head) == |history| ==> head == old(head) && doc == old(doc)
      ensures old(head) < |history| ==> head == old(head) + 1 && doc == cl.redo(history[old(head)], old(doc))
    {
      if CanRedo(Fields()) {
        Snapshot();
        RedoInternal();
        CheckStateTransitions();
      }
    }

    /** Moves the head to an index, clipped to the history; callbacks fire once. */
    method SetHead(index: nat)
      requires Valid()
      modifies this
      ensures Valid() && Now() == Step(cl, old(Now()), SetHeadOp(index))
      ensures history == old(history) && undoLimit == old(undoLimit) && cleanIndex == old(cleanIndex)
      ensures head == if index > |history| then |history| else index
    {
      var target := if index > |history| then |history| else index;
      if target == head {
        return;
      }
      Snapshot();
      ghost var goal := MoveHead(cl, history, head, target, doc);
      var back := target < head;
      while head != target
        invariant head <= |history| && target <= |history| && (if back then target <= head else head <= target)
        invariant MoveHead(cl, history, head, target, doc) == goal
        invariant history == old(history) && undoLimit == old(undoLimit) && cleanIndex == old(cleanIndex)
        invariant states == old(states) && cleanDoc == old(cleanDoc) && listener == old(listener)
        invariant lastSnapshot == Observed(old(Fields()))
        decreases if back then head - target else target - head
      {
        if back {
          UndoInternal();
        } else {
          RedoInternal();
        }
      }
      CheckStateTransitions();
    }

    method SetClean()
      requires Valid()
      modifies this
      ensures Valid() && Now() == Step(cl, old(Now()), SetCleanOp)
      ensures history == old(history) && head == old(head) && cleanIndex == head && doc == old(doc)
    {
      Snapshot();
      cleanIndex := head;
      cleanDoc := doc;
      CheckStateTransitions();
    }

    method ResetClean()
      requires Valid()
      modifies this
      ensures Valid() && Now() == Step(cl, old(Now()), ResetCleanOp)
      ensures history == old(history) && head == old(head) && cleanIndex == -1 && doc == old(doc)
    {
      Snapshot();
      cleanIndex := -1;
      CheckStateTransitions();
    }

    method SetUndoLimit(limit: nat) returns (ok: bool)
      requires Valid()
      modifies this`undoLimit
      ensures Valid() && ok == (history == []) && Now() == Step(cl, old(Now()), SetLimitOp(limit))
      ensures undoLimit == if ok then limit else old(undoLimit)
    {
      if history == [] {
        undoLimit := limit;
        return true;
      }
      return false;
    }
  }

  /** Dispatches one operation. */
  method Perform<Cmd(!new), Doc(!new)>(stack: UndoStack<Cmd, Doc>, op: Op<Cmd>)
    requires stack.Valid()
    modifies stack
    ensures stack.Valid() && stack.Now() == Step(stack.cl, old(stack.Now()), op)
  {
    hide Step;
    match op
    case PushOp(c) => stack.Push(c);
    case UndoOp => stack.Undo();
    case RedoOp => stack.Redo();
    case SetHeadOp(index) => stack.SetHead(index);
    case SetCleanOp => stack.SetClean();
    case ResetCleanOp => stack.ResetClean();
    case ClearOp => stack.Clear();
    case SetLimitOp(limit) => var ok := stack.SetUndoLimit(limit);
  }

  /** Any run on the stack object is the run of its history, and leaves the listener in agreement. */
  method PerformAll<Cmd(!new), Doc(!new)>(stack: UndoStack<Cmd, Doc>, ops: seq<Op<Cmd>>)
    requires stack.Valid()
    modifies stack
    ensures stack.Valid() && stack.Now() == Run(stack.cl, old(stack.Now()), ops)
    ensures stack.listener
      == Seen(stack.head, stack.head == stack.cleanIndex, stack.head > 0, stack.head < |stack.history|)
  {
    hide Step, Observed;
    for i := 0 to |ops|
      invariant stack.Valid() && Run(stack.cl, stack.Now(), ops[i..]) == Run(stack.cl, old(stack.Now()), ops)
    {
      assert ops[i..][1..] == ops[i + 1..];
      Perform(stack, ops[i]);
    }
    SeenIs(stack.listener, stack.Fields());
  }

  lemma SeenIs<Cmd>(l: Seen, s: Stack<Cmd>)
    ensures l == Observed(s) <==> l == Seen(s.head, s.head == s.clean, s.head > 0, s.head < |s.history|)
  {
  }

  // ---- Groups ----

  /** What an active stack called `name` shows, given that the stack `moving` takes over every name that is free. */
  function Shown<Cmd, Doc>(stacks: map<nat, Session<Cmd, Doc>>, moving: nat, name: nat): Seen
    requires moving in stacks
  {
    if name == 0 then NOTHING
    else if name in stacks then Observed(stacks[name].stack)
    else Observed(stacks[moving].stack)
  }

  /** A group of named stacks, one of which may be active. Stacks are values of the group's table, and all of
      them report to the group's callbacks. */
  class UndoGroup<Cmd(!new), Doc(!new)> {
    const cl: Client<Cmd, Doc>
    var active: nat
    var stacks: map<nat, Session<Cmd, Doc>>
    var listener: Seen
    var announced: nat

    /** The names and the stacks, without what has been announced. */
    ghost function Names(): Group<Cmd, Doc>
      reads this`active, this`stacks
    {
      Group(active, stacks)
    }

    /** What the observers of the active stack answer. */
    function ActiveSeen(): Seen
      reads this
    {
      if active != 0 && active in stacks then Observed(stacks[active].stack) else NOTHING
    }

    ghost predicate Valid()
      reads this
    {
      (active != 0 ==> active in stacks) && forall n :: n in stacks ==> Formed(stacks[n])
    }

    constructor (client: Client<Cmd, Doc>)
      ensures Valid() && listener == ActiveSeen() && announced == active == 0 && stacks == map[] && cl == client
    {
      cl, active, stacks, listener, announced := client, 0, map[], NOTHING, 0;
    }

    /** Switches the active stack and announces its name and its four observable values, one callback each. */
    method ChangeActiveStack(name: nat)
      requires name != 0 ==> name in stacks
      modifies this`active, this`listener, this`announced
      ensures active == name && announced == name && listener == ActiveSeen()
    {
      active := name;
      announced := name;
      listener := listener.(head := if active != 0 then stacks[active].stack.head else 0);
      listener := listener.(isClean := if active != 0 then IsClean(stacks[active].stack) else false);
      listener := listener.(canUndo := if active != 0 then CanUndo(stacks[active].stack) else false);
      listener := listener.(canRedo := if active != 0 then CanRedo(stacks[active].stack) else false);
    }

    method AddStack(name: nat, document: Doc) returns (ok: bool)
      requires Valid() && listener == ActiveSeen()
      modifies this`stacks
      ensures Valid() && listener == ActiveSeen()
      ensures ok <==> name != 0 && name !in old(stacks)
      ensures stacks == if ok then old(stacks)[name := Fresh(document)] else old(stacks)
    {
      if name == 0 || name in stacks {
        return false;
      }
      stacks := stacks[name := Fresh(document)];
      return true;
    }

    method RemoveStack(name: nat) returns (ok: bool)
      requires Valid() && listener == ActiveSeen()
      modifies this
      ensures Valid() && listener == ActiveSeen()
      ensures ok <==> name in old(stacks)
      ensures stacks == old(stacks) - {name} && active == if name == old(active) then 0 else old(active)
    {
      if name !in stacks {
        return false;
      }
      stacks := stacks - {name};
      if active == name {
        ChangeActiveStack(0);
      }
      return true;
    }

    method SetActive(name: nat) returns (ok: bool)
      requires Valid() && listener == ActiveSeen()
      modifies this
      ensures Valid() && listener == ActiveSeen() && stacks == old(stacks)
      ensures ok <==> name == old(active) || name in old(stacks)
      ensures active == if ok then name else old(active)
    {
      if active == name {
        return true;
      }
      if name in stacks {
        ChangeActiveStack(name);
        return true;
      }
      return false;
    }

    /** Renames a stack. A name already taken keeps its own stack and the renamed one is lost. If the active stack
        was renamed, the listener still agrees exactly when the name now active shows the same as the old one
        did, as a fresh non-zero name does; the announced name is left behind. */
    method RelabelStack(oldName: nat, newName: nat) returns (ok: bool)
      requires Valid() && listener == ActiveSeen()
      modifies this`stacks, this`active
      ensures Valid() && (ok <==> oldName in old(stacks))
      ensures stacks == if !ok then old(stacks)
                        else if newName in old(stacks) && newName != oldName then old(stacks) - {oldName}
                        else (old(stacks) - {oldName})[newName := old(stacks)[oldName]]
      ensures active == if ok && old(active) == oldName then newName else old(active)
      ensures !ok || old(active) != oldName ==> listener == ActiveSeen()
      ensures ok && old(active) == oldName ==>
                (listener == ActiveSeen() <==>
                 Shown(old(stacks), oldName, newName) == Shown(old(stacks), oldName, oldName))
      ensures ok && oldName != 0 && newName != 0 && newName !in old(stacks) ==> listener == ActiveSeen()
      ensures old(announced == active) ==>
        (announced == active <==> !ok || old(active) != oldName || newName == oldName)
    {
      if oldName !in stacks {
        return false;
      }
      var moved := stacks[oldName];
      stacks := stacks - {oldName};
      if newName !in stacks {
        stacks := stacks[newName := moved];
      }
      if active == oldName {
        active := newName;
      }
      return true;
    }

    /** Forwards an operation to the active stack, whose callbacks reach the group's listener. */
    method Forward(op: Op<Cmd>)
      requires Valid() && listener == ActiveSeen()
      modifies this`stacks, this`listener
      ensures Valid() && listener == ActiveSeen()
      ensures stacks == if active == 0 then old(stacks) else old(stacks)[active := Step(cl, old(stacks)[active], op)]
    {
      hide Step;
      if active != 0 {
        var before := Observed(stacks[active].stack);
        var next := Step(cl, stacks[active], op);
        stacks := stacks[active := next];
        listener := Notify(listener, before, Observed(next.stack));
      }
    }
  }

  // ---- Runs of a group ----

  datatype Group<Cmd, Doc> = Group(active: nat, stacks: map<nat, Session<Cmd, Doc>>)

  datatype GroupOp<Cmd, Doc> =
    | AddOp(name: nat, document: Doc)
    | RemoveOp(name: nat)
    | ActivateOp(name: nat)
    | RelabelOp(oldName: nat, newName: nat)
    | ForwardOp(op: Op<Cmd>)

  ghost predicate GroupOk<Cmd, Doc>(g: Group<Cmd, Doc>)
  {
    (g.active != 0 ==> g.active in g.stacks) && forall n :: n in g.stacks ==> Formed(g.stacks[n])
  }

  /** What an operation does to the names and the stacks, callbacks aside. */
  ghost function GroupStep<Cmd(!new), Doc(!new)>(
      cl: Client<Cmd, Doc>, g: Group<Cmd, Doc>, op: GroupOp<Cmd, Doc>): (r: Group<Cmd, Doc>)
    requires GroupOk(g)
    ensures GroupOk(r)
  {
    hide Step;
    match op
    case AddOp(name, document) =>
      if name == 0 || name in g.stacks then g else g.(stacks := g.stacks[name := Fresh(document)])
    case RemoveOp(name) => Group(if name == g.active then 0 else g.active, g.stacks - {name})
    case ActivateOp(name) => if name in g.stacks then g.(active := name) else g
    case RelabelOp(oldName, newName) =>
      if oldName !in g.stacks then g
      else
        var rest := g.stacks - {oldName};
        Group(if g.active == oldName then newName else g.active,
              if newName in rest then rest else rest[newName := g.stacks[oldName]])
    case ForwardOp(op) =>
      if g.active == 0 then g else g.(stacks := g.stacks[g.active := Step(cl, g.stacks[g.active], op)])
  }

  ghost function GroupRun<Cmd(!new), Doc(!new)>(
      cl: Client<Cmd, Doc>, g: Group<Cmd, Doc>, ops: seq<GroupOp<Cmd, Doc>>): (r: Group<Cmd, Doc>)
    requires GroupOk(g)
    ensures GroupOk(r)
  {
    if ops == [] then g else GroupStep(cl, GroupRun(cl, g, ops[..|ops| - 1]), ops[|ops| - 1])
  }

  /** Renaming fires no callback, so the active stack may be renamed only to what shows the same. */
  ghost predicate Quiet<Cmd, Doc>(g: Group<Cmd, Doc>, op: GroupOp<Cmd, Doc>)
  {
    op.RelabelOp? && op.oldName in g.stacks && g.active == op.oldName ==>
      Shown(g.stacks, op.oldName, op.newName) == Shown(g.stacks, op.oldName, op.oldName)
  }

  /** A fresh non-zero name is always quiet. */
  lemma FreshIsQuiet<Cmd, Doc>(g: Group<Cmd, Doc>, op: GroupOp<Cmd, Doc>)
    requires op.RelabelOp? ==> op.oldName != 0 && op.newName != 0 && op.newName !in g.stacks
    ensures Quiet(g, op)
  {
  }

  ghost predicate AllQuiet<Cmd(!new), Doc(!new)>(cl: Client<Cmd, Doc>, g: Group<Cmd, Doc>, ops: seq<GroupOp<Cmd, Doc>>)
    requires GroupOk(g)
  {
    forall i :: 0 <= i < |ops| ==> Quiet(GroupRun(cl, g, ops[..i]), ops[i])
  }

  /** So is a run in which every renaming is to a name that is fresh at that point. */
  lemma FreshRunsAreQuiet<Cmd(!new), Doc(!new)>(cl: Client<Cmd, Doc>, g: Group<Cmd, Doc>, ops: seq<GroupOp<Cmd, Doc>>)
    requires GroupOk(g)
    requires forall i :: 0 <= i < |ops| && ops[i].RelabelOp? ==>
      ops[i].oldName != 0 && ops[i].newName != 0 && ops[i].newName !in GroupRun(cl, g, ops[..i]).stacks
    ensures AllQuiet(cl, g, ops)
  {
    hide Quiet, GroupRun, GroupStep;
    forall i | 0 <= i < |ops|
      ensures Quiet(GroupRun(cl, g, ops[..i]), ops[i])
    {
      FreshIsQuiet(GroupRun(cl, g, ops[..i]), ops[i]);
    }
  }

  /** One operation on the group; afterwards the listener agrees exactly when it was quiet. */
  method PerformInGroup<Cmd(!new), Doc(!new)>(group: UndoGroup<Cmd, Doc>, op: GroupOp<Cmd, Doc>)
    requires group.Valid() && group.listener == group.ActiveSeen()
    modifies group
    ensures group.Valid()
    ensures GroupOk(old(group.Names())) && group.Names() == GroupStep(group.cl, old(group.Names()), op)
    ensures group.listener == group.ActiveSeen() <==> Quiet(old(group.Names()), op)
  {
    hide Step, Observed;
    match op
    case AddOp(name, document) => var ok := group.AddStack(name, document);
    case RemoveOp(name) => var ok := group.RemoveStack(name);
    case ActivateOp(name) => var ok := group.SetActive(name);
    case RelabelOp(oldName, newName) => var ok := group.RelabelStack(oldName, newName);
    case ForwardOp(op) => group.Forward(op);
  }

  /** Over any run on the group whose renamings are quiet the listener agrees with the active stack. */
  method PerformAllInGroup<Cmd(!new), Doc(!new)>(group: UndoGroup<Cmd, Doc>, ops: seq<GroupOp<Cmd, Doc>>)
    requires group.Valid() && group.listener == group.ActiveSeen()
    requires GroupOk(group.Names()) && AllQuiet(group.cl, group.Names(), ops)
    modifies group
    ensures group.Valid() && group.Names() == GroupRun(group.cl, old(group.Names()), ops)
    ensures group.listener == group.ActiveSeen()
    ensures group.active == 0 ==> group.listener == Seen(0, false, false, false)
    ensures group.active != 0 ==>
      var s := group.stacks[group.active].stack;
      group.listener == Seen(s.head, s.head == s.clean, s.head > 0, s.head < |s.history|)
  {
    hide GroupStep, Quiet, Observed;
    ghost var g := group.Names();
    for i := 0 to |ops|
      invariant group.Valid() && group.listener == group.ActiveSeen()
      invariant group.Names() == GroupRun(group.cl, g, ops[..i])
    {
      assert ops[..i + 1][..i] == ops[..i];
      PerformInGroup(group, ops[i]);
    }
    assert ops[..|ops|] == ops;
    if group.active != 0 {
      SeenIs(group.listener, group.stacks[group.active].stack);
    }
  }
}
