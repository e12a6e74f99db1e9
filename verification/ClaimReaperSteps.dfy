/**
 One edge of a sweep twice over: as the loop of `reap_claims`, and as a thread's steps in the claim
 protocol. Played without interruption, the steps do to the edge what the loop does.
 */
module ClaimReaperSteps {
  import opened Options
  import opened Claims
  import opened ClaimRuns
  import R = ClaimReaper

  /** What the probe of the lease byte says to thread `t`, whose own tree's lock it does not see. */
  function ProbeOf(st: State, t: nat, answered: bool): R.Probe
    requires t < |st.threads|
  {
    if !answered then R.Unreadable
    else if st.lease.Held? && st.lease.tree != st.threads[t].tree then R.LeaseHeld
    else R.LeaseFree
  }

  /** Every step of the run is thread `t`'s. */
  ghost predicate OnlyBy(run: seq<Step>, t: nat) {
    forall i :: 0 <= i < |run| ==> run[i].Does? && run[i].t == t
  }

  lemma {:induction false} Revokes(st: State, t: nat) returns (run: seq<Step>, st': State)
    requires ActEnabled(st, t, Load) && ProbeOf(st, t, true) == R.LeaseFree
    ensures Exec(st, run) == Some(st') && OnlyBy(run, t)
    ensures st' == st.(clock := st.clock + 4, owner := Vacant, epoch := st.epoch + 1, threads := st'.threads)
    ensures st'.threads == st.threads[t := Thread(st.threads[t].tree, Idle)]
  {
    run, st' := Then(st, [], st, t, Load);
    run, st' := Then(st, run, st', t, Probe(true));
    run, st' := Then(st, run, st', t, Bump);
    run, st' := Then(st, run, st', t, Clear);
  }

  /** A word that the sweep looks at and lets be; the thread is where it was. */
  lemma {:induction false} LooksOnly(st: State, t: nat, answered: bool) returns (run: seq<Step>, st': State)
    requires Living(st, t) && st.threads[t].pc == Idle
    requires Enabled(st, Does(t, Load)) ==> ProbeOf(st, t, answered) != R.LeaseFree
    ensures Exec(st, run) == Some(st') && OnlyBy(run, t) && st' == st.(clock := st'.clock)
  {
    run, st' := [], st;
    if Enabled(st, Does(t, Load)) {
      run, st' := Then(st, run, st', t, Load);
      run, st' := Then(st, run, st', t, Probe(answered));
      assert st'.threads == st.threads;
    }
  }

  /**
   From any state in which thread `t` of a living tree is idle, its own steps bring the edge to where the
   sweep's contract says: revoked with its epoch moved, or word and epoch as they were.
   */
  lemma {:induction false} UninterruptedStepsAreASweep(st: State, t: nat, onlySlot: Option<nat>, answered: bool)
    returns (run: seq<Step>, st': State)
    requires Living(st, t) && st.threads[t].pc == Idle
    ensures Exec(st, run) == Some(st') && OnlyBy(run, t)
    ensures st'.threads == st.threads && st'.trees == st.trees && st'.lease == st.lease
    ensures if R.Revocable(st.owner, Slot(st, t), onlySlot, ProbeOf(st, t, answered))
            then st'.owner == Vacant && st'.epoch == st.epoch + 1
            else st'.owner == st.owner && st'.epoch == st.epoch
  {
    if R.Revocable(st.owner, Slot(st, t), onlySlot, ProbeOf(st, t, answered)) {
      run, st' := Revokes(st, t);
    } else if onlySlot.Some? {
      run, st' := [], st;
    } else {
      run, st' := LooksOnly(st, t, answered);
    }
  }
}
