/** Single runs of the owner role that show what its two requirements are for. */
module OwnerMigrationRuns {
  import opened Options
  import opened OwnerMigration

  lemma {:induction false} ExecAppend(st: State, xs: seq<Step>, ys: seq<Step>)
    requires Exec(st, xs).Some?
    ensures Exec(st, xs + ys) == Exec(Exec(st, xs).value, ys)
    decreases |xs|
  {
    if xs == [] {
      assert xs + ys == ys;
    } else {
      assert (xs + ys)[0] == xs[0] && (xs + ys)[1..] == xs[1..] + ys;
      ExecAppend(Apply(st, xs[0]), xs[1..], ys);
    }
  }

  lemma {:induction false} Then(init: State, run: seq<Step>, st: State, step: Step)
    returns (run': seq<Step>, st': State)
    requires Exec(init, run) == Some(st) && Enabled(st, step)
    ensures run' == run + [step] && st' == Apply(st, step) && Exec(init, run') == Some(st')
  {
    run', st' := run + [step], Apply(st, step);
    ExecAppend(init, run, [step]);
    assert Exec(st', []) == Some(st');
  }

  function Fresh(): Tree {
    Tree(true, true, false, None, false, false, false, false, Kept)
  }

  /** The owner role changes hands while the dropped server still serves. */
  lemma {:induction false} SessionFirstMakesTwoServers() returns (init: State, run: seq<Step>)
    ensures Init(init) && init.sessionFirst && Exec(init, run).Some?
    ensures var now := Exec(init, run).value;
            |now.trees| == 2 && now.trees[0].serving && now.trees[1].serving && now.byte0 == Some(1)
  {
    init := State(true, true, None, [Fresh(), Fresh()], []);
    var st;
    run, st := Then(init, [], init, OnTree(0, OpenTake));
    run, st := Then(init, run, st, OnTree(0, OpenServe));
    run, st := Then(init, run, st, OnTree(0, Teardown));
    run, st := Then(init, run, st, OnTree(0, DropOn));
    run, st := Then(init, run, st, OnTree(1, OpenTake));
    run, st := Then(init, run, st, OnTree(1, OpenServe));
  }

  /** Call `c`, begun on a joined tree whose owner is gone, is about to take the attachment. */
  lemma {:induction false} Approaches(init: State, run: seq<Step>, st: State, c: nat)
    returns (run': seq<Step>, st': State)
    requires Exec(init, run) == Some(st) && !st.single && st.byte0 == None
    requires c < |st.calls| && st.calls[c].pc == Idle && st.calls[c].tree < |st.trees|
    requires var tree := st.trees[st.calls[c].tree]; tree.alive && tree.writable && tree.cell == Some(Joined)
    ensures Exec(init, run') == Some(st') && |st'.calls| == |st.calls|
    ensures st' == st.(calls := st'.calls) && st'.calls[c] == Call(st.calls[c].tree, SawWritable, Some(Joined))
    ensures forall e :: 0 <= e < |st.calls| && e != c ==> st'.calls[e] == st.calls[e]
  {
    run', st' := Then(init, run, st, OnCall(c, Begin));
    run', st' := Then(init, run', st', OnCall(c, IsJoined));
    run', st' := Then(init, run', st', OnCall(c, OwnerLost(true)));
    run', st' := Then(init, run', st', OnCall(c, IsWritable));
  }

  /** Both calls have checked what there is to check; one has the attachment in hand. */
  lemma {:induction false} OneTakesIt() returns (init: State, run: seq<Step>, st: State)
    ensures Init(init) && !init.sessionFirst && Exec(init, run) == Some(st)
    ensures |st.trees| == 1 && |st.calls| == 2 && st.byte0 == None && !st.sessionFirst && !st.single
    ensures st.calls[0] == Call(0, InHand, Some(Joined)) && st.calls[1] == Call(0, SawWritable, Some(Joined))
    ensures st.trees[0] == Tree(true, true, false, None, false, false, true, false, Kept)
  {
    init := State(false, false, None, [Fresh()], [Call(0, Idle, None), Call(0, Idle, None)]);
    run, st := Then(init, [], init, OnTree(0, Join));
    run, st := Approaches(init, run, st, 0);
    run, st := Approaches(init, run, st, 1);
    run, st := Then(init, run, st, OnCall(0, Take));
  }

  /** One call inherits; the other found the cell empty meanwhile, and still has that to put back. */
  lemma {:induction false} InheritsBesideAnother() returns (init: State, run: seq<Step>, st: State)
    ensures Init(init) && !init.sessionFirst && Exec(init, run) == Some(st)
    ensures |st.trees| == 1 && |st.calls| == 2 && st.calls[0] == Call(0, Returned(Inherited), Some(Joined))
    ensures st.calls[1] == Call(0, Putting(None, NotApplicable), Some(Joined))
    ensures st.byte0 == Some(0) && !st.sessionFirst
    ensures st.trees[0] == Tree(true, true, false, Some(Owner), true, false, true, true, Kept)
  {
    init, run, st := OneTakesIt();
    run, st := Then(init, run, st, OnCall(1, Take));
    run, st := Then(init, run, st, OnCall(0, TakeOver(true)));
    run, st := Then(init, run, st, OnCall(0, Spawn(true)));
    run, st := Then(init, run, st, OnCall(0, Put));
  }

  /**
   Two calls in flight on one tree: the first returns `Inherited`, the second `NotApplicable`, and the
   second has put an empty cell over the server. Nobody serves and the tree's own slot byte is gone.
   */
  lemma {:induction false} TwoCallsLoseTheSession() returns (init: State, run: seq<Step>)
    ensures Init(init) && !init.sessionFirst && Exec(init, run).Some?
    ensures var now := Exec(init, run).value;
            && |now.trees| == 1 && |now.calls| == 2
            && now.calls[0].pc == Returned(Inherited) && now.calls[1].pc == Returned(NotApplicable)
            && now.trees[0].alive && now.trees[0].cell == None && !now.trees[0].serving && !now.trees[0].slotByte
            && now.byte0 == None
  {
    var st;
    init, run, st := InheritsBesideAnother();
    run, st := Then(init, run, st, OnCall(1, Put));
    run, st := Then(init, run, st, OnTree(0, DropOn));
    run, st := Then(init, run, st, OnTree(0, DropOn));
  }
}
