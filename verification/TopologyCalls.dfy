/**
 One mutation of the topology that nobody interrupts, from the mutex to the mutex: whether it gets both
 locks, and that it leaves neither behind.
 */
module TopologyCalls {
  import opened Options
  import opened TopologyLock
  import opened TopologyRuns

  /** Nobody else's description holds the byte. */
  predicate ByteFor(st: State, d: nat) {
    st.byte == None || st.byte == Some(d)
  }

  /** Thread `t` of a living tree whose mutex is free has nothing in hand. */
  predicate Ready(st: State, t: nat) {
    && Living(st, t) && st.threads[t].pc == Idle && st.mutexes[st.threads[t].tree] == None
  }

  /** What the word says of the slot it names; nothing if it is free. */
  function Named(word: Word): nat {
    if word.Clear? then 0 else word.slot + 1
  }

  /** Up to both locks, or to where the word turned the caller away. */
  lemma {:induction false} Acquires(st: State, t: nat, gone: bool) returns (run: seq<Step>, st': State)
    requires Ready(st, t) && ByteFor(st, st.threads[t].tree)
    ensures Exec(st, run) == Some(st')
    ensures var d := st.threads[t].tree;
            var locked := st.(mutexes := st.mutexes[d := Some(t)], byte := Some(d), threads := st'.threads);
            && |st'.threads| == |st.threads| && st'.threads[t].tree == d
            && (forall u :: 0 <= u < |st.threads| && u != t ==> st'.threads[u] == st.threads[u])
            && if MayTake(Named(st.word), Slot(st, t), !gone)
               then st' == locked.(word := Names(Slot(st, t), t)) && st'.threads[t].pc == Mutating
               else st' == locked && st'.threads[t].pc.Observed?
  {
    run, st' := Then(st, [], st, Does(t, Lock));
    run, st' := Then(st, run, st', Does(t, TakeByte(true)));
    if st.word.Clear? {
      run, st' := Then(st, run, st', Does(t, SwapWord));
    } else {
      run, st' := Then(st, run, st', Does(t, Observe));
      if gone && st.word.slot != Slot(st, t) {
        run, st' := Then(st, run, st', Does(t, Steal));
      }
    }
  }

  /** The way back: the word, the byte, the mutex. */
  lemma {:induction false} Releases(init: State, run0: seq<Step>, st: State, t: nat)
    returns (run: seq<Step>, st': State)
    requires Exec(init, run0) == Some(st) && Living(st, t) && st.byte == Some(st.threads[t].tree)
    requires (st.threads[t].pc == Mutating && st.word == Names(Slot(st, t), t)) || st.threads[t].pc.Observed?
    ensures Exec(init, run) == Some(st')
    ensures var d := st.threads[t].tree;
            st' == st.(byte := None, mutexes := st.mutexes[d := None], threads := st.threads[t := Thread(d, Idle)],
                       word := if st.threads[t].pc == Mutating then Clear else st.word)
  {
    run, st' := run0, st;
    if st.threads[t].pc == Mutating {
      run, st' := Then(init, run, st', Does(t, ReleaseWord));
    }
    run, st' := Then(init, run, st', Does(t, DropByte));
    run, st' := Then(init, run, st', Does(t, Unlock));
  }

  /**
   From any state in which a tree's mutex is free and nobody else holds the byte, one mutation gets both locks
   exactly when the word may be taken, and afterwards word, byte and mutex are free; a refused one leaves the
   word as it found it.
   */
  lemma {:induction false} AnUninterruptedMutation(st: State, t: nat, gone: bool)
    returns (run: seq<Step>, mid: State, st': State)
    requires Ready(st, t) && ByteFor(st, st.threads[t].tree)
    ensures Exec(st, run) == Some(st')
    ensures |mid.threads| == |st.threads|
            && (mid.threads[t].pc == Mutating <==> MayTake(Named(st.word), Slot(st, t), !gone))
    ensures st' == st.(byte := None, word := if mid.threads[t].pc == Mutating then Clear else st.word)
  {
    run, mid := Acquires(st, t, gone);
    run, st' := Releases(st, run, mid, t);
    assert st'.threads == st.threads && st'.mutexes == st.mutexes;
  }

  /** And when somebody else holds the byte, or the kernel does not answer, it gives up and changes nothing. */
  lemma {:induction false} AContendedMutation(st: State, t: nat, answered: bool) returns (run: seq<Step>, st': State)
    requires Ready(st, t) && !(answered && ByteFor(st, st.threads[t].tree))
    ensures Exec(st, run) == Some(st') && st' == st
  {
    run, st' := Then(st, [], st, Does(t, Lock));
    run, st' := Then(st, run, st', Does(t, TakeByte(answered)));
    run, st' := Then(st, run, st', Does(t, GiveUp));
    run, st' := Then(st, run, st', Does(t, Unlock));
    assert st'.threads == st.threads && st'.mutexes == st.mutexes;
  }

  /** The kernel drops a dead tree's byte, and its mutex was the process's own. */
  lemma {:induction false} TheKernelDropsForTheDead(st: State, d: nat)
    requires Enabled(st, KernelDropsByte(d))
    ensures !st.trees[d].alive && st.byte == Some(d) && Apply(st, KernelDropsByte(d)) == st.(byte := None)
  {
  }

  /**
   In any state, reachable or not, the word moves by compare-exchange alone: it is swapped in where it is
   free, stolen where it still names the slot that was observed, and taken out where it names the own slot.
   */
  lemma {:induction false} TheWordMovesByCompareExchange(st: State, t: nat)
    requires Living(st, t)
    ensures Enabled(st, Does(t, SwapWord)) ==> st.word == Clear && !Enabled(st, Does(t, Observe))
    ensures Enabled(st, Does(t, Steal)) ==>
              var next := Apply(st, Does(t, Steal));
              if Named(st.word) == st.threads[t].pc.slot + 1
              then next.word == Names(Slot(st, t), t) && next.threads[t].pc == Mutating
              else next == st
    ensures Enabled(st, Does(t, ReleaseWord)) ==>
              Apply(st, Does(t, ReleaseWord)).word
              == if Named(st.word) == Slot(st, t) + 1 then Clear else st.word
  {
  }
}
