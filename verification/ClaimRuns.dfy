/**
 Single runs of the claim protocol that show where its guarantees stop.
 */
module ClaimRuns {
  import opened Options
  import opened Claims

  /** Three trees with a thread each, and a second thread of the first tree. */
  function NewEdge(solo: bool): (st: State)
    ensures Init(st)
  {
    State(solo, 0, Vacant, 0, Unheld, [Tree(0, true), Tree(1, true), Tree(2, true)],
          [Thread(0, Idle), Thread(0, Idle), Thread(1, Idle), Thread(2, Idle)])
  }

  lemma {:induction false} ExecAppend(st: State, xs: seq<Step>, ys: seq<Step>)
    requires Exec(st, xs).Some?
    ensures Exec(st, xs + ys) == Exec(Exec(st, xs).value, ys)
    decreases |xs|
  {
    if xs == [] {
      assert xs + ys == ys;
    } else {
      assert (xs + ys)[0] == xs[0] && (xs + ys)[1..] == xs[1..] + ys;
      ExecAppend(Apply(st, xs[0]), xs[1..], ys);
    }
  }

  /** Lengthens a run by one action of thread `t`. */
  lemma {:induction false} Then(init: State, run: seq<Step>, st: State, t: nat, act: Act)
    returns (run': seq<Step>, st': State)
    requires Exec(init, run) == Some(st) && ActEnabled(st, t, act)
    ensures run' == run + [Does(t, act)] && st' == Acted(st, t, act).(clock := st.clock + 1)
    ensures Exec(init, run') == Some(st')
  {
    run', st' := run + [Does(t, act)], Apply(st, Does(t, act));
    ExecAppend(init, run, [Does(t, act)]);
    assert Exec(st', []) == Some(st');
  }

  /** Thread `t` claims the free edge without interference. */
  lemma {:induction false} ClaimsEdge(init: State, run0: seq<Step>, st0: State, t: nat)
    returns (run: seq<Step>, st: State)
    requires Exec(init, run0) == Some(st0) && ActEnabled(st0, t, Swap)
    requires st0.lease.Unheld? || st0.lease.tree == st0.threads[t].tree
    ensures Exec(init, run) == Some(st)
    ensures st == st0.(clock := st0.clock + 5, owner := Owned(st0.epoch + 1, Slot(st0, t)), epoch := st0.epoch + 1,
                       lease := Held(st0.threads[t].tree, t),
                       threads := st0.threads[t := Thread(st0.threads[t].tree, Writing(st0.epoch + 1, st0.clock + 4))])
  {
    run, st := Then(init, run0, st0, t, Swap);
    run, st := Then(init, run, st, t, Number);
    run, st := Then(init, run, st, t, Store);
    run, st := Then(init, run, st, t, TakeLease(true));
    run, st := Then(init, run, st, t, Check);
  }

  /** Thread `r` reaps without interference. */
  lemma {:induction false} ReapsEdge(init: State, run0: seq<Step>, st0: State, r: nat)
    returns (run: seq<Step>, st: State)
    requires Exec(init, run0) == Some(st0) && ActEnabled(st0, r, Load)
    requires st0.lease.Unheld? || st0.lease.tree == st0.threads[r].tree
    ensures Exec(init, run) == Some(st)
    ensures st == st0.(clock := st0.clock + 4, owner := Vacant, epoch := st0.epoch + 1,
                       threads := st0.threads[r := Thread(st0.threads[r].tree, Idle)])
  {
    run, st := Then(init, run0, st0, r, Load);
    run, st := Then(init, run, st, r, Probe(true));
    run, st := Then(init, run, st, r, Bump);
    run, st := Then(init, run, st, r, Clear);
  }

  /** A reaper of tree 1 reads the lease of thread 0's claim free, because it has not been taken yet. */
  lemma {:induction false} LookedBeforeTheLease(init: State) returns (run: seq<Step>, st: State)
    requires init == NewEdge(init.solo)
    ensures Exec(init, run) == Some(st)
    ensures st == init.(clock := 5, owner := Owned(1, 0), epoch := 1, threads := st.threads)
    ensures st.threads == [Thread(0, Stored(1)), Thread(0, Idle), Thread(1, Probed(Owned(1, 0), 3)), Thread(2, Idle)]
  {
    run, st := Then(init, [], init, 0, Swap);
    run, st := Then(init, run, st, 0, Number);
    run, st := Then(init, run, st, 0, Store);
    run, st := Then(init, run, st, 2, Load);
    run, st := Then(init, run, st, 2, Probe(true));
  }

  /** Thread 0's claim returns Ok; a reaper that looked before it took its lease is about to reap. */
  lemma {:induction false} OkUnderAReaper(init: State) returns (run: seq<Step>, st: State)
    requires init == NewEdge(init.solo)
    ensures Exec(init, run) == Some(st)
    ensures st.solo == init.solo && st.owner == Owned(1, 0) && st.epoch == 1
    ensures st.lease == Held(0, 0) && st.trees == init.trees
    ensures st.clock == 7
    ensures st.threads == [Thread(0, Writing(1, 6)), Thread(0, Idle), Thread(1, Probed(Owned(1, 0), 3)),
                           Thread(2, Idle)]
  {
    run, st := LookedBeforeTheLease(init);
    run, st := Then(init, run, st, 0, TakeLease(true));
    run, st := Then(init, run, st, 0, Check);
  }

  /** The first thread's writer is revoked under it, and its sibling claims the edge anew. */
  lemma {:induction false} TheSiblingClaims(init: State) returns (run: seq<Step>, st: State)
    requires init == NewEdge(false)
    ensures Exec(init, run) == Some(st)
    ensures !st.solo && st.owner == Owned(3, 0) && st.epoch == 3 && st.lease == Held(0, 1) && st.trees == init.trees
    ensures |st.threads| == 4 && st.threads[0] == Thread(0, Writing(1, 6))
    ensures st.threads[1] == Thread(0, Writing(3, 13)) && st.threads[2] == Thread(1, Idle)
    ensures st.clock == 14
  {
    run, st := OkUnderAReaper(init);
    run, st := Then(init, run, st, 2, Bump);
    run, st := Then(init, run, st, 2, Clear);
    run, st := ClaimsEdge(init, run, st, 1);
  }

  /**
   One tree, two threads: dropping a revoked writer unlocks the byte the tree's new writer relies on,
   and a reaper of another tree that loads the owner word long after that claim's Ok revokes it.
   */
  lemma {:induction false} ASiblingsDropExposesALiveWriter() returns (init: State, run: seq<Step>, r: nat, u: nat)
    ensures Init(init) && Exec(init, run).Some?
    ensures var st := Exec(init, run).value;
            && Enabled(st, Does(r, Bump))
            && Living(st, u) && IsWriter(st.threads[u].pc) && st.threads[u].pc.epoch == st.epoch
            && st.threads[u].tree != st.threads[r].tree && st.threads[u].pc.okAt < st.threads[r].pc.at
  {
    init := NewEdge(false);
    var st;
    run, st := TheSiblingClaims(init);
    run, st := Then(init, run, st, 0, Release);
    run, st := Then(init, run, st, 0, Unlease);
    run, st := Then(init, run, st, 2, Load);
    run, st := Then(init, run, st, 2, Probe(true));
    r, u := 2, 1;
  }

  /** One tree, two threads: both are in the middle of a push. */
  lemma {:induction false} SiblingsPushTogether() returns (init: State, run: seq<Step>)
    ensures Init(init) && Exec(init, run).Some?
    ensures var st := Exec(init, run).value;
            Living(st, 0) && Living(st, 1) && st.threads[0].pc.Pushing? && st.threads[1].pc.Pushing?
  {
    init := NewEdge(false);
    var st;
    run, st := OkUnderAReaper(init);
    run, st := Then(init, run, st, 0, Push);
    run, st := Then(init, run, st, 2, Bump);
    run, st := Then(init, run, st, 2, Clear);
    run, st := ClaimsEdge(init, run, st, 1);
    run, st := Then(init, run, st, 1, Push);
  }

  /** A reaper of tree 1 finds thread 0 in mid-claim, with no lease yet, and draws its epoch first. */
  lemma {:induction false} ReaperDrawsFirst(init: State) returns (run: seq<Step>, st: State)
    requires init == NewEdge(true)
    ensures Exec(init, run) == Some(st)
    ensures st == init.(clock := 4, owner := Claiming, epoch := 1, threads := st.threads)
    ensures st.threads == [Thread(0, Swapped), Thread(0, Idle), Thread(1, Bumped(Claiming, 1)), Thread(2, Idle)]
  {
    run, st := Then(init, [], init, 0, Swap);
    run, st := Then(init, run, st, 2, Load);
    run, st := Then(init, run, st, 2, Probe(true));
    run, st := Then(init, run, st, 2, Bump);
  }

  /**
   One attempt a tree. A reap that draws its epoch between the claimer's swap and its own draw passes
   the re-check unseen, and then clears the claimer's word: `claim` returns Ok with nothing in the
   record.
   */
  lemma {:induction false} OkWithAnEmptyRecord(init: State) returns (run: seq<Step>, st: State)
    requires init == NewEdge(true)
    ensures Exec(init, run) == Some(st)
    ensures st.owner == Vacant && st.epoch == 2 && st.lease == Held(0, 0) && st.trees == init.trees && st.solo
    ensures |st.threads| == 4 && st.threads[0] == Thread(0, Writing(2, 8))
    ensures st.threads[1] == Thread(0, Idle) && st.threads[2] == Thread(1, Idle) && st.threads[3] == Thread(2, Idle)
  {
    run, st := ReaperDrawsFirst(init);
    run, st := Then(init, run, st, 0, Number);
    run, st := Then(init, run, st, 0, Store);
    run, st := Then(init, run, st, 2, Clear);
    run, st := Then(init, run, st, 0, TakeLease(true));
    run, st := Then(init, run, st, 0, Check);
  }

  /** So another tree's claim gets past the record; it is refused the lease, but has revoked the writer. */
  lemma {:induction false} ARefusedClaimRevokesALiveWriter() returns (init: State, run: seq<Step>)
    ensures Init(init) && init.solo && Exec(init, run).Some?
    ensures var st := Exec(init, run).value;
            && Living(st, 0) && IsWriter(st.threads[0].pc) && st.lease == Held(0, 0)
            && st.threads[0].pc.epoch < st.epoch
            && Living(st, 3) && st.threads[3].pc.Refused?
  {
    init := NewEdge(true);
    var st;
    run, st := OkWithAnEmptyRecord(init);
    run, st := Then(init, run, st, 3, Swap);
    run, st := Then(init, run, st, 3, Number);
    run, st := Then(init, run, st, 3, Store);
    run, st := Then(init, run, st, 3, TakeLease(true));
  }

  /** A reaper of tree 2 clears the word of thread 2's claim, which then draws its number. */
  lemma {:induction false} NumberedWithoutAWord(init: State) returns (run: seq<Step>, st: State)
    requires init == NewEdge(true)
    ensures Exec(init, run) == Some(st)
    ensures st == init.(clock := 6, epoch := 2, threads := st.threads)
    ensures st.threads == [Thread(0, Idle), Thread(0, Idle), Thread(1, Numbered(2)), Thread(2, Idle)]
  {
    run, st := Then(init, [], init, 2, Swap);
    run, st := ReapsEdge(init, run, st, 3);
    run, st := Then(init, run, st, 2, Number);
  }

  /** And before that claim stores its word, thread 0 claims to Ok. */
  lemma {:induction false} OkBesideASlowClaimer(init: State) returns (run: seq<Step>, st: State)
    requires init == NewEdge(true)
    ensures Exec(init, run) == Some(st)
    ensures st.solo && st.owner == Owned(3, 0) && st.epoch == 3 && st.lease == Held(0, 0) && st.trees == init.trees
    ensures |st.threads| == 4 && st.threads[0] == Thread(0, Writing(3, 10)) && st.threads[1] == Thread(0, Idle)
    ensures st.threads[2] == Thread(1, Numbered(2))
    ensures st.clock == 11
  {
    run, st := NumberedWithoutAWord(init);
    run, st := ClaimsEdge(init, run, st, 0);
  }

  /**
   One attempt a tree. The slower claimer stores its word over the writer's; a reaper of the writer's
   own tree, which loads long after the Ok, no longer sees its own slot, does not see its own lease, and
   is about to revoke a living writer.
   */
  lemma {:induction false} AnOwnReaperRevokesALiveWriter() returns (init: State, run: seq<Step>, r: nat, u: nat)
    ensures Init(init) && init.solo && Exec(init, run).Some?
    ensures var st := Exec(init, run).value;
            && Enabled(st, Does(r, Bump)) && Living(st, u) && IsWriter(st.threads[u].pc)
            && st.threads[u].pc.epoch == st.epoch && st.lease == Held(st.threads[u].tree, u)
            && st.threads[u].tree == st.threads[r].tree && st.threads[u].pc.okAt < st.threads[r].pc.at
  {
    init := NewEdge(true);
    var st;
    run, st := OkBesideASlowClaimer(init);
    run, st := Then(init, run, st, 2, Store);
    run, st := Then(init, run, st, 1, Load);
    run, st := Then(init, run, st, 1, Probe(true));
    r, u := 1, 0;
  }
}
