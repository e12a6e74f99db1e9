/** Single runs of the topology lock that show what each of its parts is for, and where it stops. */
module TopologyRuns {
  import opened Options
  import opened TopologyLock

  lemma {:induction false} ExecAppend(st: State, xs: seq<Step>, ys: seq<Step>)
    requires Exec(st, xs).Some?
    ensures Exec(st, xs + ys) == Exec(Exec(st, xs).value, ys)
    decreases |xs|
  {
    if xs == [] {
      assert xs + ys == ys;
    } else {
      assert (xs + ys)[0] == xs[0] && (xs + ys)[1..] == xs[1..] + ys;
      ExecAppend(Apply(st, xs[0]), xs[1..], ys);
    }
  }

  lemma {:induction false} Then(init: State, run: seq<Step>, st: State, step: Step)
    returns (run': seq<Step>, st': State)
    requires Exec(init, run) == Some(st) && Enabled(st, step)
    ensures run' == run + [step] && st' == Apply(st, step) && Exec(init, run') == Some(st')
  {
    run', st' := run + [step], Apply(st, step);
    ExecAppend(init, run, [step]);
    assert Exec(st', []) == Some(st');
  }

  /** Thread 0 mutates, and thread 1 of its tree, which ran into the word, drops the byte they share. */
  lemma {:induction false} ByteDroppedUnderAMutation(init: State) returns (run: seq<Step>, st: State)
    requires init == State(false, Clear, None, [None, None], [Tree(0, true), Tree(1, true)],
                           [Thread(0, Idle), Thread(0, Idle), Thread(1, Idle)])
    ensures Exec(init, run) == Some(st)
    ensures !st.useMutex && st.word == Names(0, 0) && st.byte == None && |st.mutexes| == 2 && st.trees == init.trees
    ensures st.threads == [Thread(0, Mutating), Thread(0, ByteDropped), Thread(1, Idle)]
  {
    run, st := Then(init, [], init, Does(0, Lock));
    run, st := Then(init, run, st, Does(0, TakeByte(true)));
    run, st := Then(init, run, st, Does(0, SwapWord));
    run, st := Then(init, run, st, Does(1, Lock));
    run, st := Then(init, run, st, Does(1, TakeByte(true)));
    run, st := Then(init, run, st, Does(1, DropByte));
  }

  /** The mutex is needed: two threads of one tree share a description, and one's drop frees the other's byte. */
  lemma {:induction false} WithoutTheMutexTwoMutate() returns (init: State, run: seq<Step>)
    ensures Init(init) && !init.useMutex && Exec(init, run).Some?
    ensures var st := Exec(init, run).value;
            Living(st, 0) && st.threads[0].pc.Mutating? && Living(st, 2) && st.threads[2].pc.Mutating?
  {
    init := State(false, Clear, None, [None, None], [Tree(0, true), Tree(1, true)],
                  [Thread(0, Idle), Thread(0, Idle), Thread(1, Idle)]);
    var st;
    run, st := ByteDroppedUnderAMutation(init);
    run, st := Then(init, run, st, Does(2, Lock));
    run, st := Then(init, run, st, Does(2, TakeByte(true)));
    run, st := Then(init, run, st, Does(2, Observe));
    run, st := Then(init, run, st, Does(2, Steal));
  }

  /**
   A process dies holding the word, and a new one is granted its slot. The new one holds the byte, sees
   a word whose holder is dead, and may not take it: the word names its own slot. Anybody else who asks
   about that slot is told, truthfully, that its participant lives.
   */
  lemma {:induction false} AReusedSlotIsNotStolen() returns (init: State, run: seq<Step>)
    ensures Init(init) && init.useMutex && Exec(init, run).Some?
    ensures var st := Exec(init, run).value;
            && Living(st, 1) && st.threads[1].pc == Observed(Slot(st, 1))
            && st.word.Names? && !Living(st, st.word.setter)
            && !Enabled(st, Does(1, SwapWord)) && !Enabled(st, Does(1, Steal))
  {
    init := State(true, Clear, None, [None, None], [Tree(5, true), Tree(5, true)], [Thread(0, Idle), Thread(1, Idle)]);
    var st;
    run, st := Then(init, [], init, Does(0, Lock));
    run, st := Then(init, run, st, Does(0, TakeByte(true)));
    run, st := Then(init, run, st, Does(0, SwapWord));
    run, st := Then(init, run, st, Die(0));
    run, st := Then(init, run, st, KernelDropsByte(0));
    run, st := Then(init, run, st, Does(1, Lock));
    run, st := Then(init, run, st, Does(1, TakeByte(true)));
    run, st := Then(init, run, st, Does(1, Observe));
  }
}
