/**
 What `inherit_ownership` answers, and when: which trees may try for the role, over every run, and the
 whole table of answers for a call that nobody interrupts.
 */
module OwnerAnswers {
  import opened Options
  import opened OwnerMigration
  import opened OwnerMigrationRuns

  /** Answers that a call gives only once it has tried for the role. */
  predicate Tried(outcome: Outcome) {
    outcome == Inherited || outcome == Contended || outcome == Failed || outcome == FailedKeeping
  }

  /** The call is past the test of the tree's mapping, or has answered from there. */
  predicate Trying(pc: Pc) {
    pc.SawWritable? || pc.InHand? || pc.Won? || pc.BindFailed? || pc.Putting? || (pc.Returned? && Tried(pc.outcome))
  }

  /** What a call has seen of its tree's mapping, which never changes. */
  predicate MappingFits(call: Call, tree: Tree) {
    && (Trying(call.pc) ==> tree.writable)
    && (call.pc.Returned? && call.pc.outcome == ReadOnly ==> !tree.writable)
    && (call.pc.Putting? ==> call.pc.outcome != ReadOnly)
  }

  ghost predicate MappingsFit(st: State) {
    forall c: nat {:trigger st.calls[c]} :: c < |st.calls| ==>
      st.calls[c].tree < |st.trees| && MappingFits(st.calls[c], st.trees[st.calls[c].tree])
  }

  lemma {:induction false} TreeActMapping(st: State, e: nat, act: TreeAct, d: nat)
    requires TreeEnabled(st, e, act) && d < |st.trees|
    ensures d < |TreeApplied(st, e, act).trees| && TreeApplied(st, e, act).trees[d].writable == st.trees[d].writable
  {
  }

  lemma {:induction false} CallActMapping(st: State, e: nat, act: CallAct, d: nat)
    requires CallEnabled(st, e, act) && d < |st.trees|
    ensures d < |CallApplied(st, e, act).trees| && CallApplied(st, e, act).trees[d].writable == st.trees[d].writable
  {
  }

  lemma {:induction false} CallActOthers(st: State, e: nat, act: CallAct, c: nat)
    requires CallEnabled(st, e, act) && c < |st.calls|
    ensures |CallApplied(st, e, act).calls| == |st.calls|
    ensures c != e ==> CallApplied(st, e, act).calls[c] == st.calls[c]
  {
  }

  /** No step changes a tree's mapping, or a call but the one that acts. */
  lemma {:induction false} SameMappings(st: State, step: Step, d: nat)
    requires Enabled(st, step) && d < |st.trees|
    ensures d < |Apply(st, step).trees| && Apply(st, step).trees[d].writable == st.trees[d].writable
  {
    match step
    case OnTree(e, act) => TreeActMapping(st, e, act, d);
    case OnCall(e, act) => CallActMapping(st, e, act, d);
  }

  lemma {:induction false} CallMapping(st: State, c: nat, act: CallAct)
    requires CallEnabled(st, c, act) && MappingFits(st.calls[c], st.trees[st.calls[c].tree])
    ensures c < |CallApplied(st, c, act).calls| && CallApplied(st, c, act).calls[c].tree == st.calls[c].tree
    ensures MappingFits(CallApplied(st, c, act).calls[c], st.trees[st.calls[c].tree])
  {
  }

  lemma {:induction false} OtherCalls(st: State, step: Step, c: nat)
    requires Enabled(st, step) && c < |st.calls|
    ensures |Apply(st, step).calls| == |st.calls|
    ensures !(step.OnCall? && step.c == c) ==> Apply(st, step).calls[c] == st.calls[c]
  {
    match step
    case OnTree(e, act) => TreeActCalls(st, e, act);
    case OnCall(e, act) => CallActOthers(st, e, act, c);
  }

  lemma {:induction false} TreeActCalls(st: State, e: nat, act: TreeAct)
    requires TreeEnabled(st, e, act)
    ensures TreeApplied(st, e, act).calls == st.calls
  {
  }

  /** Seen through one step: same tree, same mapping, and what the call knows of it still fits. */
  lemma {:induction false} StepMapping(st: State, step: Step, c: nat)
    requires Enabled(st, step) && c < |st.calls| && st.calls[c].tree < |st.trees|
    requires MappingFits(st.calls[c], st.trees[st.calls[c].tree])
    ensures var st' := Apply(st, step);
            && c < |st'.calls| && st'.calls[c].tree == st.calls[c].tree < |st'.trees|
            && st'.trees[st.calls[c].tree].writable == st.trees[st.calls[c].tree].writable
            && MappingFits(st'.calls[c], st'.trees[st.calls[c].tree])
  {
    SameMappings(st, step, st.calls[c].tree);
    if step.OnCall? && step.c == c {
      CallMapping(st, c, step.call);
    } else {
      OtherCalls(st, step, c);
    }
  }

  lemma {:induction false} ExecMappings(st: State, steps: seq<Step>)
    requires MappingsFit(st) && Exec(st, steps).Some?
    ensures MappingsFit(Exec(st, steps).value)
    decreases |steps|
  {
    if steps != [] {
      var st' := Apply(st, steps[0]);
      assert |st'.calls| == |st.calls|;
      forall c: nat {:trigger st'.calls[c]} | c < |st'.calls|
        ensures st'.calls[c].tree < |st'.trees| && MappingFits(st'.calls[c], st'.trees[st'.calls[c].tree])
      {
        StepMapping(st, steps[0], c);
      }
      ExecMappings(st', steps[1..]);
    }
  }

  /**
   In every run, with any number of calls in flight, only a call on a writable tree takes the attachment,
   tries for byte 0, or answers anything that says so; and only on a read-only tree is the answer `ReadOnly`.
   */
  lemma {:induction false} OnlyAWritableTreeTries(init: State, steps: seq<Step>, c: nat)
    requires Init(init) && Exec(init, steps).Some? && c < |Exec(init, steps).value.calls|
    ensures var st := Exec(init, steps).value;
            var d := st.calls[c].tree;
            && d < |st.trees|
            && (Trying(st.calls[c].pc) ==> st.trees[d].writable)
            && (st.calls[c].pc == Returned(ReadOnly) ==> !st.trees[d].writable)
  {
    ExecMappings(init, steps);
  }

  // ---------------------------------------------------------------------------------------------
  // Past the lost-owner test
  // ---------------------------------------------------------------------------------------------

  /** From the lost-owner test on: a read-only tree is still to be told so, or has been. */
  predicate PastLost(call: Call, tree: Tree) {
    && MappingFits(call, tree)
    && (call.pc.Putting? ==> call.pc.outcome != OwnerAlive)
    && (call.pc.SawLost? || Trying(call.pc) || call.pc == Returned(ReadOnly)
        || (call.pc == Returned(NotApplicable) && tree.writable))
  }

  lemma {:induction false} CallPastLost(st: State, c: nat, act: CallAct)
    requires CallEnabled(st, c, act) && act != Begin && PastLost(st.calls[c], st.trees[st.calls[c].tree])
    ensures c < |CallApplied(st, c, act).calls|
    ensures PastLost(CallApplied(st, c, act).calls[c], st.trees[st.calls[c].tree])
  {
  }

  lemma {:induction false} StepPastLost(st: State, step: Step, c: nat)
    requires Enabled(st, step) && c < |st.calls| && st.calls[c].tree < |st.trees| && step != OnCall(c, Begin)
    requires PastLost(st.calls[c], st.trees[st.calls[c].tree])
    ensures var st' := Apply(st, step);
            && c < |st'.calls| && st'.calls[c].tree == st.calls[c].tree < |st'.trees|
            && st'.trees[st.calls[c].tree].writable == st.trees[st.calls[c].tree].writable
            && PastLost(st'.calls[c], st'.trees[st.calls[c].tree])
  {
    StepMapping(st, step, c);
    OtherCalls(st, step, c);
    if step.OnCall? && step.c == c {
      CallPastLost(st, c, step.call);
    }
  }

  lemma {:induction false} ExecPastLost(st: State, steps: seq<Step>, c: nat)
    requires Exec(st, steps).Some? && c < |st.calls| && st.calls[c].tree < |st.trees|
    requires forall i :: 0 <= i < |steps| ==> steps[i] != OnCall(c, Begin)
    requires PastLost(st.calls[c], st.trees[st.calls[c].tree])
    ensures var st' := Exec(st, steps).value;
            && c < |st'.calls| && st'.calls[c].tree == st.calls[c].tree < |st'.trees|
            && st'.trees[st.calls[c].tree].writable == st.trees[st.calls[c].tree].writable
            && PastLost(st'.calls[c], st'.trees[st.calls[c].tree])
    decreases |steps|
  {
    if steps != [] {
      StepPastLost(st, steps[0], c);
      assert forall i :: 0 <= i < |steps[1..]| ==> steps[1..][i] == steps[i + 1];
      ExecPastLost(Apply(st, steps[0]), steps[1..], c);
    }
  }

  /** A call past the lost-owner test, however it goes on, answers `ReadOnly` exactly when its tree is read-only. */
  lemma {:induction false} ReadOnlyExactlyWhen(st: State, steps: seq<Step>, c: nat)
    requires Exec(st, steps).Some? && c < |st.calls| && st.calls[c].tree < |st.trees| && st.calls[c].pc.SawLost?
    requires forall i :: 0 <= i < |steps| ==> steps[i] != OnCall(c, Begin)
    requires c < |Exec(st, steps).value.calls| && Exec(st, steps).value.calls[c].pc.Returned?
    ensures Exec(st, steps).value.calls[c].pc.outcome == ReadOnly <==> !st.trees[st.calls[c].tree].writable
  {
    ExecPastLost(st, steps, c);
  }

  /** Somebody else holds byte 0. */
  predicate Taken(byte0: Option<nat>, d: nat) {
    byte0.Some? && byte0.value != d
  }

  /**
   The two answers before that, whatever is interleaved, from the tree and byte 0 at their own step: with
   one call in flight, a call that began on a joined tree is never told `NotApplicable`, and is told
   `OwnerAlive` exactly when its socket has not hung up or somebody else holds byte 0.
   */
  lemma {:induction false} EarlyAnswersExactlyWhen(init: State, steps: seq<Step>, c: nat, hungUp: bool)
    requires Init(init) && !init.sessionFirst && init.single && Exec(init, steps).Some?
    requires var st := Exec(init, steps).value;
             c < |st.calls| && st.calls[c].tree < |st.trees| && st.trees[st.calls[c].tree].alive
    ensures var st := Exec(init, steps).value;
            st.calls[c].pc.Begun? ==>
              CallApplied(st, c, IsJoined).calls[c].pc
              == (if st.trees[st.calls[c].tree].cell == Some(Joined) then SawJoined else Returned(NotApplicable))
              && (st.calls[c].before == Some(Joined) ==> CallApplied(st, c, IsJoined).calls[c].pc == SawJoined)
    ensures var st := Exec(init, steps).value;
            st.calls[c].pc.SawJoined? && st.calls[c].before == Some(Joined) ==>
              CallApplied(st, c, OwnerLost(hungUp)).calls[c].pc
              == if !hungUp || Taken(st.byte0, st.calls[c].tree) then Returned(OwnerAlive) else SawLost
  {
    InitInv(init);
    ExecSolo(init, steps);
    var st := Exec(init, steps).value;
    assert Accounted(st.calls[c], st.trees[st.calls[c].tree]);
  }

  // ---------------------------------------------------------------------------------------------
  // One call, uninterrupted
  // ---------------------------------------------------------------------------------------------

  /** What the system answers: the hangup, the lock on byte 0, the bind, and the release after a failed one. */
  datatype System = System(hungUp: bool, locks: bool, binds: bool, releases: bool)

  /** The answers, top down, from the tree, byte 0 and the system alone. */
  function Answer(tree: Tree, d: nat, byte0: Option<nat>, sys: System): Outcome {
    if tree.cell != Some(Joined) then NotApplicable
    else if !sys.hungUp || Taken(byte0, d) then OwnerAlive
    else if !tree.writable then ReadOnly
    else if byte0 == None && !sys.locks then Failed
    else if sys.binds then Inherited
    else if sys.releases then Failed
    else FailedKeeping
  }

  /** Byte 0 after the call: taken or kept with the role and with a release that fails, free after a release. */
  function Byte0After(d: nat, byte0: Option<nat>, outcome: Outcome): Option<nat> {
    match outcome
    case Inherited => Some(d)
    case FailedKeeping => Some(d)
    case Failed => None
    case _ => byte0
  }

  /** No call is in flight on the tree of call `c`, which lives. */
  ghost predicate Ready(st: State, c: nat) {
    && Solo(st) && c < |st.calls| && !InFlight(st.calls[c].pc)
    && st.calls[c].tree < |st.trees| && st.trees[st.calls[c].tree].alive && Quiet(st, st.calls[c].tree)
  }

  /** The state, but for where call `c` is. */
  function At(st: State, c: nat, pc: Pc): State
    requires c < |st.calls| && st.calls[c].tree < |st.trees|
  {
    st.(calls := st.calls[c := Call(st.calls[c].tree, pc, st.trees[st.calls[c].tree].cell)])
  }

  /** The three tests, none of which changes anything. */
  lemma {:induction false} Tests(st: State, c: nat, sys: System) returns (run: seq<Step>, st': State)
    requires Ready(st, c)
    ensures Exec(st, run) == Some(st')
    ensures var d := st.calls[c].tree;
            var tree := st.trees[d];
            st' == At(st, c, if tree.cell != Some(Joined) then Returned(NotApplicable)
                             else if !sys.hungUp || Taken(st.byte0, d) then Returned(OwnerAlive)
                             else if !tree.writable then Returned(ReadOnly)
                             else SawWritable)
  {
    run, st' := Then(st, [], st, OnCall(c, Begin));
    run, st' := Then(st, run, st', OnCall(c, IsJoined));
    if st'.calls[c].pc.SawJoined? {
      run, st' := Then(st, run, st', OnCall(c, OwnerLost(sys.hungUp)));
      if st'.calls[c].pc.SawLost? {
        run, st' := Then(st, run, st', OnCall(c, IsWritable));
      }
    }
  }

  /** The attachment is taken out, and byte 0 asked for. */
  lemma {:induction false} AsksForTheByte(init: State, run0: seq<Step>, st: State, c: nat, sys: System)
    returns (run: seq<Step>, st': State)
    requires Exec(init, run0) == Some(st) && c < |st.calls| && st.calls[c].tree < |st.trees|
    requires st.calls[c].pc == SawWritable
    requires var d := st.calls[c].tree;
             var tree := st.trees[d];
             tree.alive && tree.cell == Some(Joined) && !Taken(st.byte0, d) && (tree.owner <==> st.byte0 == Some(d))
    ensures Exec(init, run) == Some(st')
    ensures var d := st.calls[c].tree;
            var got := st.byte0 == Some(d) || sys.locks;
            st' == st.(trees := st.trees[d := st.trees[d].(cell := None, owner := got)],
                       byte0 := if got then Some(d) else None,
                       calls := st.calls[c := st.calls[c].(pc := if got then Won else Putting(Some(Joined), Failed))])
  {
    run, st' := Then(init, run0, st, OnCall(c, Take));
    run, st' := Then(init, run, st', OnCall(c, TakeOver(sys.locks)));
  }

  /** The rendezvous is bound, or byte 0 given back. */
  lemma {:induction false} Binds(init: State, run0: seq<Step>, st: State, c: nat, sys: System)
    returns (run: seq<Step>, st': State)
    requires Exec(init, run0) == Some(st) && c < |st.calls| && st.calls[c].tree < |st.trees|
    requires st.calls[c].pc == Won && st.trees[st.calls[c].tree].alive && st.byte0 == Some(st.calls[c].tree)
    ensures Exec(init, run) == Some(st') && |st'.calls| == |st.calls| && |st'.trees| == |st.trees|
    ensures var d := st.calls[c].tree;
            && st'.calls[c].tree == d && st'.trees[d].alive && st'.trees[d].cell == st.trees[d].cell
            && st'.calls[c].pc == (if sys.binds then Putting(Some(Owner), Inherited)
                                   else if sys.releases then Putting(Some(Joined), Failed)
                                   else Putting(Some(Joined), FailedKeeping))
            && st'.trees[d].serving == (sys.binds || st.trees[d].serving)
            && st'.byte0 == if !sys.binds && sys.releases then None else Some(d)
  {
    run, st' := Then(init, run0, st, OnCall(c, Spawn(sys.binds)));
    if !sys.binds {
      run, st' := Then(init, run, st', OnCall(c, GiveBack(sys.releases)));
    }
  }

  /** What a call leaves: its answer, byte 0, the cell, and who serves. */
  predicate Answered(st: State, st': State, c: nat, outcome: Outcome)
    requires c < |st.calls| && st.calls[c].tree < |st.trees|
  {
    var d := st.calls[c].tree;
    && c < |st'.calls| && st'.calls[c].tree == d < |st'.trees|
    && st'.calls[c].pc == Returned(outcome)
    && st'.byte0 == Byte0After(d, st.byte0, outcome)
    && st'.trees[d].cell == (if outcome == Inherited then Some(Owner) else st.trees[d].cell)
    && st'.trees[d].serving == (outcome == Inherited || st.trees[d].serving)
  }

  lemma {:induction false} PutsBack(init: State, run0: seq<Step>, st: State, c: nat)
    returns (run: seq<Step>, st': State)
    requires Exec(init, run0) == Some(st) && c < |st.calls| && st.calls[c].tree < |st.trees|
    requires st.calls[c].pc.Putting? && st.trees[st.calls[c].tree].alive
    ensures Exec(init, run) == Some(st') && |st'.calls| == |st.calls| && |st'.trees| == |st.trees|
    ensures var d := st.calls[c].tree;
            && st'.calls[c].tree == d && st'.calls[c].pc == Returned(st.calls[c].pc.outcome) && st'.byte0 == st.byte0
            && st'.trees[d].cell == st.calls[c].pc.what && st'.trees[d].serving == st.trees[d].serving
  {
    run, st' := Then(init, run0, st, OnCall(c, Put));
  }

  lemma {:induction false} CallAnswers(st: State, c: nat, sys: System) returns (run: seq<Step>, st': State)
    requires Ready(st, c)
    ensures Exec(st, run) == Some(st')
    ensures var d := st.calls[c].tree; Answered(st, st', c, Answer(st.trees[d], d, st.byte0, sys))
  {
    var d := st.calls[c].tree;
    assert TreeOk(st.trees[d], d, st.byte0);
    run, st' := Tests(st, c, sys);
    if st'.calls[c].pc.SawWritable? {
      run, st' := AsksForTheByte(st, run, st', c, sys);
      if st'.calls[c].pc.Won? {
        run, st' := Binds(st, run, st', c, sys);
      }
      run, st' := PutsBack(st, run, st', c);
    }
  }

  /**
   From every reachable state, one call that nobody interrupts gives the answer of the table, and leaves
   byte 0, the cell and the server as that answer says.
   */
  lemma {:induction false} AnUninterruptedCallAnswers(init: State, before: seq<Step>, c: nat, sys: System)
    returns (run: seq<Step>)
    requires Init(init) && !init.sessionFirst && init.single && Exec(init, before).Some?
    requires var st := Exec(init, before).value;
             && c < |st.calls| && !InFlight(st.calls[c].pc)
             && st.calls[c].tree < |st.trees| && st.trees[st.calls[c].tree].alive && Quiet(st, st.calls[c].tree)
    ensures var st := Exec(init, before).value;
            var d := st.calls[c].tree;
            Exec(st, run).Some? && Answered(st, Exec(st, run).value, c, Answer(st.trees[d], d, st.byte0, sys))
  {
    InitInv(init);
    ExecSolo(init, before);
    var st';
    run, st' := CallAnswers(Exec(init, before).value, c, sys);
  }

  // ---------------------------------------------------------------------------------------------
  // Creation and teardown, uninterrupted
  // ---------------------------------------------------------------------------------------------

  /** A process that is attached to nothing, with no call in flight, and nobody in the owner role. */
  predicate Apart(st: State, d: nat) {
    d < |st.trees| && st.trees[d].alive && Blank(st.trees[d]) && Quiet(st, d) && !st.sessionFirst
  }

  /** Creating the arena takes byte 0 and serves; tearing it down leaves all as it was. */
  lemma {:induction false} OpenThenTeardown(st: State, d: nat) returns (run: seq<Step>, more: seq<Step>, mid: State)
    requires Apart(st, d) && st.byte0 == None
    ensures Exec(st, run) == Some(mid) && Exec(mid, more) == Some(st)
    ensures mid.byte0 == Some(d) && d < |mid.trees| && mid.trees[d].serving && mid.trees[d].cell == Some(Owner)
            && mid.trees[d].slotByte
  {
    run, mid := Then(st, [], st, OnTree(d, OpenTake));
    run, mid := Then(st, run, mid, OnTree(d, OpenServe));
    var st';
    more, st' := Then(mid, [], mid, OnTree(d, Teardown));
    more, st' := Then(mid, more, st', OnTree(d, DropOn));
    more, st' := Then(mid, more, st', OnTree(d, DropOn));
    assert st'.trees[d] == st.trees[d] && st'.trees == st.trees;
  }

  /** Joining takes the slot byte alone; tearing that down leaves all as it was. */
  lemma {:induction false} JoinThenTeardown(st: State, d: nat) returns (run: seq<Step>, more: seq<Step>, mid: State)
    requires Apart(st, d) && st.byte0 != Some(d)
    ensures Exec(st, run) == Some(mid) && Exec(mid, more) == Some(st)
    ensures mid.byte0 == st.byte0 && d < |mid.trees| && !mid.trees[d].serving && mid.trees[d].cell == Some(Joined)
            && mid.trees[d].slotByte
  {
    run, mid := Then(st, [], st, OnTree(d, Join));
    var st';
    more, st' := Then(mid, [], mid, OnTree(d, Teardown));
    more, st' := Then(mid, more, st', OnTree(d, DropOn));
    more, st' := Then(mid, more, st', OnTree(d, DropOn));
    assert st'.trees[d] == st.trees[d] && st'.trees == st.trees;
  }

  /** An opener that took byte 0 in passing gives it back. */
  lemma {:induction false} OpenThenYield(st: State, d: nat) returns (run: seq<Step>)
    requires Apart(st, d) && st.byte0 == None
    ensures Exec(st, run) == Some(st) && |run| == 2
  {
    var st';
    run, st' := Then(st, [], st, OnTree(d, OpenTake));
    assert st'.byte0 == Some(d);
    run, st' := Then(st, run, st', OnTree(d, OpenYield));
    assert st'.trees == st.trees;
  }

  /** Death ends the serving at once; byte 0 comes back when the kernel drops it, and not before. */
  lemma {:induction false} TheDeadGiveBackByte0(st: State, d: nat) returns (run: seq<Step>, mid: State, st': State)
    requires d < |st.trees| && st.trees[d].alive && st.byte0 == Some(d)
    ensures Exec(st, run) == Some(st') && mid == Apply(st, OnTree(d, Die))
    ensures mid.byte0 == Some(d) && st'.byte0 == None && st'.trees == mid.trees
    ensures !st'.trees[d].alive && !st'.trees[d].serving
  {
    run, mid := Then(st, [], st, OnTree(d, Die));
    run, st' := Then(st, run, mid, OnTree(d, KernelDrops));
  }
}
