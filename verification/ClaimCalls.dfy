/**
 A claim and a drop, each as one call that nobody interrupts: what they come to from any state, and that
 the one undoes the other.
 */
module ClaimCalls {
  import opened Options
  import opened Claims
  import opened ClaimRuns

  /** Every step of the run is thread `t`'s. */
  ghost predicate OnlyBy(run: seq<Step>, t: nat) {
    forall i :: 0 <= i < |run| ==> run[i].Does? && run[i].t == t
  }

  /** How the edge is left, word, epoch and lease, and where the thread is; nothing else has changed. */
  predicate Comes(st: State, st': State, t: nat, owner: Owner, epoch: nat, lease: Lease, pc: Pc, took: nat) {
    && t < |st.threads| && st'.threads == st.threads[t := Thread(st.threads[t].tree, pc)]
    && st'.owner == owner && st'.epoch == epoch && st'.lease == lease
    && st'.clock == st.clock + took && st'.trees == st.trees && st'.solo == st.solo
  }

  /** Nobody else holds the lease. */
  predicate LeaseFor(st: State, tree: nat) {
    st.lease.Held? ==> st.lease.tree == tree
  }

  /** Swap, number and word. */
  lemma {:induction false} TakesTheRecord(st: State, t: nat) returns (run: seq<Step>, st': State)
    requires ActEnabled(st, t, Swap)
    ensures Exec(st, run) == Some(st') && OnlyBy(run, t)
    ensures var e := st.epoch + 1;
            Comes(st, st', t, Owned(e, Slot(st, t)), e, st.lease, Stored(e), 3)
  {
    run, st' := Then(st, [], st, t, Swap);
    run, st' := Then(st, run, st', t, Number);
    run, st' := Then(st, run, st', t, Store);
  }

  /** The lease, and the re-check or the way out. */
  lemma {:induction false} TakesTheLease(init: State, run0: seq<Step>, st: State, t: nat, answered: bool)
    returns (run: seq<Step>, st': State)
    requires Exec(init, run0) == Some(st) && OnlyBy(run0, t) && Living(st, t)
    requires st.threads[t].pc == Stored(st.epoch) && st.owner == Owned(st.epoch, Slot(st, t))
    ensures Exec(init, run) == Some(st') && OnlyBy(run, t)
    ensures var d := st.threads[t].tree;
            if answered && LeaseFor(st, d)
            then Comes(st, st', t, st.owner, st.epoch, Held(d, t), Writing(st.epoch, st.clock + 1), 2)
            else Comes(st, st', t, Vacant, st.epoch, st.lease, Idle, 2)
  {
    run, st' := Then(init, run0, st, t, TakeLease(answered));
    if st'.threads[t].pc.Leased? {
      run, st' := Then(init, run, st', t, Check);
    } else {
      run, st' := Then(init, run, st', t, Release);
    }
  }

  /**
   A claim gets past the record exactly if it is free, and draws an epoch then whatever comes of it. It
   returns a writer if the kernel answers and nobody else holds the lease, and else leaves the record free.
   */
  lemma {:induction false} AnUninterruptedClaim(st: State, t: nat, answered: bool)
    returns (run: seq<Step>, st': State)
    requires Living(st, t) && st.threads[t].pc == Idle && (st.solo ==> !SiblingBusy(st, t))
    ensures Enabled(st, Does(t, Swap)) <==> st.owner == Vacant
    ensures Exec(st, run) == Some(st') && OnlyBy(run, t)
    ensures var (d, e) := (st.threads[t].tree, st.epoch + 1);
            if st.owner != Vacant then st' == st
            else if answered && LeaseFor(st, d)
            then Comes(st, st', t, Owned(e, Slot(st, t)), e, Held(d, t), Writing(e, st.clock + 4), 5)
            else Comes(st, st', t, Vacant, e, st.lease, Idle, 5)
  {
    run, st' := [], st;
    if st.owner == Vacant {
      run, st' := TakesTheRecord(st, t);
      run, st' := TakesTheLease(st, run, st', t, answered);
    }
  }

  /** The word after a thread of slot `slot` whose claim drew epoch `e` takes its own out. */
  function WithoutOwn(owner: Owner, e: nat, slot: nat): Owner {
    if owner == Owned(e, slot) then Vacant else owner
  }

  /** The lease after tree `d`'s description unlocks it. */
  function WithoutLease(lease: Lease, d: nat): Lease {
    if lease.Held? && lease.tree == d then Unheld else lease
  }

  /** Dropping a writer, and a claim that was outrun, take out the thread's own word alone, and unlock the byte. */
  lemma {:induction false} AnUninterruptedDrop(st: State, t: nat) returns (run: seq<Step>, st': State)
    requires Living(st, t) && (st.threads[t].pc.Writing? || st.threads[t].pc.Outrun?)
    ensures Exec(st, run) == Some(st') && OnlyBy(run, t)
    ensures Comes(st, st', t, WithoutOwn(st.owner, st.threads[t].pc.epoch, Slot(st, t)), st.epoch,
                  WithoutLease(st.lease, st.threads[t].tree), Idle, 2)
  {
    run, st' := Then(st, [], st, t, Release);
    run, st' := Then(st, run, st', t, Unlease);
  }

  /** The re-check turns a claim whose epoch is no longer current onto the way out. */
  lemma {:induction false} AnOutrunClaimFails(st: State, t: nat) returns (run: seq<Step>, st': State)
    requires Living(st, t) && st.threads[t].pc.Leased? && st.threads[t].pc.epoch != st.epoch
    ensures Exec(st, run) == Some(st') && OnlyBy(run, t)
    ensures Comes(st, st', t, WithoutOwn(st.owner, st.threads[t].pc.epoch, Slot(st, t)), st.epoch,
                  WithoutLease(st.lease, st.threads[t].tree), Idle, 3)
  {
    run, st' := Then(st, [], st, t, Check);
    run, st' := Then(st, run, st', t, Release);
    run, st' := Then(st, run, st', t, Unlease);
  }

  /** A push of a current writer, and its end, leave everything as it was. */
  lemma {:induction false} AnUninterruptedPush(st: State, t: nat) returns (run: seq<Step>, st': State)
    requires Living(st, t) && st.threads[t].pc.Writing? && st.threads[t].pc.epoch == st.epoch
    ensures Exec(st, run) == Some(st') && OnlyBy(run, t) && st' == st.(clock := st.clock + 2)
  {
    run, st' := Then(st, [], st, t, Push);
    run, st' := Then(st, run, st', t, PushDone);
    assert st'.threads == st.threads;
  }

  /** Claimed and dropped, a free edge whose lease nobody held is as it was, one epoch on. */
  lemma {:induction false} ClaimThenDrop(st: State, t: nat) returns (run: seq<Step>, more: seq<Step>)
    requires Living(st, t) && st.threads[t].pc == Idle && (st.solo ==> !SiblingBusy(st, t))
    requires st.owner == Vacant && st.lease == Unheld
    ensures Exec(st, run).Some? && Exec(Exec(st, run).value, more).Some?
    ensures t < |Exec(st, run).value.threads| && Exec(st, run).value.threads[t].pc.Writing?
    ensures Exec(Exec(st, run).value, more).value == st.(epoch := st.epoch + 1, clock := st.clock + 7)
  {
    var mid, st';
    run, mid := AnUninterruptedClaim(st, t, true);
    more, st' := AnUninterruptedDrop(mid, t);
    assert st'.threads == st.threads;
  }

  /** The kernel unlocks a dead tree's byte, and no other's. */
  lemma {:induction false} TheKernelUnlocksForTheDead(st: State, d: nat)
    requires Enabled(st, KernelUnlocks(d))
    ensures !st.trees[d].alive
    ensures Apply(st, KernelUnlocks(d)) == st.(lease := WithoutLease(st.lease, d), clock := st.clock + 1)
  {
  }
}
