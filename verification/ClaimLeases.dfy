/**
 What the lease byte adds when each tree has at most one claim attempt or undropped writer of the
 edge at a time: it excludes every other tree's writers, and of the reapers that look after a claim's
 Ok only one of the writer's own tree gets past it, and only over a word that is not the tree's. And
 what is left of this when trees do not keep to that.
 */
module ClaimLeases {
  import opened Options
  import opened Claims

  /** Between taking the lease and giving it back. */
  predicate HoldsLease(pc: Pc) {
    pc.Leased? || IsWriter(pc) || pc.Outrun? || pc.Unleasing?
  }

  /** Thread `t` of tree `d` is in a claim or holds a writer. */
  predicate BusyOf(st: State, t: nat, d: nat) {
    t < |st.threads| && st.threads[t].tree == d && Busy(st.threads[t].pc)
  }

  ghost predicate Solo(st: State) {
    && st.solo
    && forall t: nat, u: nat, d: nat {:trigger BusyOf(st, t, d), BusyOf(st, u, d)} ::
         BusyOf(st, t, d) && BusyOf(st, u, d) ==> t == u
  }

  /** The byte is its last taker's tree's, and a living taker has not given it back. */
  predicate TakerHolds(st: State) {
    st.lease.Held? ==>
      && st.lease.taker < |st.threads| && st.threads[st.lease.taker].tree == st.lease.tree
      && (Living(st, st.lease.taker) ==> HoldsLease(st.threads[st.lease.taker].pc))
  }

  /** A living thread past `TakeLease` holds the byte, and a living tree's byte is such a thread's. */
  ghost predicate LeasesHeld(st: State) {
    && (forall t: nat {:trigger Living(st, t)} :: Living(st, t) && HoldsLease(st.threads[t].pc)
          ==> st.lease == Held(st.threads[t].tree, t))
    && TakerHolds(st)
  }

  /** Thread `t` reaps, on the strength of a word it loaded at `at` and a byte that read free. */
  predicate Reaping(st: State, t: nat, at: nat) {
    t < |st.threads| && (st.threads[t].pc.Probed? || st.threads[t].pc.Bumped?) && st.threads[t].pc.at == at
  }

  /** Thread `u` is a living writer since `okAt`. */
  predicate Wrote(st: State, u: nat, okAt: nat) {
    Living(st, u) && IsWriter(st.threads[u].pc) && st.threads[u].pc.okAt == okAt
  }

  /** Thread `t` has loaded an owner word, at `at`, and is on its way to reap. */
  predicate Looking(st: State, t: nat, at: nat) {
    Reaping(st, t, at) || (t < |st.threads| && st.threads[t].pc.Loaded? && st.threads[t].pc.at == at)
  }

  /** A reaper past its probe loaded a foreign word, and no other tree's writer had returned Ok by then. */
  ghost predicate ReapersSpare(st: State) {
    && (forall t: nat, at: nat {:trigger Looking(st, t, at)} :: Looking(st, t, at)
          ==> Thrd(st, t) && at < st.clock && Foreign(st.threads[t].pc.word, Slot(st, t)))
    && (forall t: nat, u: nat, at: nat, okAt: nat {:trigger Reaping(st, t, at), Wrote(st, u, okAt)} ::
          Reaping(st, t, at) && Wrote(st, u, okAt) && st.threads[u].tree != st.threads[t].tree ==> at < okAt)
  }

  ghost predicate Excluding(st: State) {
    Inv(st) && Solo(st) && LeasesHeld(st) && ReapersSpare(st)
  }

  /** Threads stay with their trees, and a thread that does not act stays as it is. */
  lemma {:induction false} OthersStay(st: State, step: Step, t: nat)
    requires Enabled(st, step)
    ensures |Apply(st, step).threads| == |st.threads|
    ensures t < |st.threads| ==> Apply(st, step).threads[t].tree == st.threads[t].tree
    ensures t < |st.threads| && !(step.Does? && step.t == t) ==> Apply(st, step).threads[t] == st.threads[t]
  {
  }

  lemma {:induction false} ActBusy(st: State, t: nat, act: Act)
    requires ActEnabled(st, t, act)
    ensures Busy(Acted(st, t, act).threads[t].pc) ==> Busy(st.threads[t].pc) || act.Swap?
  {
  }

  lemma {:induction false} StepBusy(st: State, step: Step, t: nat, d: nat)
    requires Enabled(st, step) && BusyOf(Apply(st, step), t, d)
    ensures BusyOf(st, t, d) || (step == Does(t, Swap) && st.threads[t].tree == d)
  {
    OthersStay(st, step, t);
    if step.Does? && step.t == t {
      ActBusy(st, t, step.act);
    }
  }

  lemma {:induction false} StepSolo(st: State, step: Step)
    requires Excluding(st) && Enabled(st, step)
    ensures Solo(Apply(st, step))
  {
    var st' := Apply(st, step);
    forall t: nat, u: nat, d: nat {:trigger BusyOf(st', t, d), BusyOf(st', u, d)}
      | BusyOf(st', t, d) && BusyOf(st', u, d)
      ensures t == u
    {
      StepBusy(st, step, t, d);
      StepBusy(st, step, u, d);
    }
  }

  lemma {:induction false} ActLeases(st: State, t: nat, act: Act)
    requires Excluding(st) && ActEnabled(st, t, act)
    ensures LeasesHeld(Acted(st, t, act))
  {
    var st' := Acted(st, t, act);
    var d := st.threads[t].tree;
    forall u: nat {:trigger Living(st', u)} | Living(st', u) && HoldsLease(st'.threads[u].pc)
      ensures st'.lease == Held(st'.threads[u].tree, u)
    {
      assert Living(st, u) && Living(st, t);
      if u != t && st.threads[u].tree == d {
        assert BusyOf(st, u, d);
        assert Busy(st.threads[t].pc) ==> BusyOf(st, t, d);
      }
    }
    if st.lease.Held? && Living(st, st.lease.taker) && st.lease.tree == d {
      assert BusyOf(st, st.lease.taker, d);
      assert Busy(st.threads[t].pc) ==> BusyOf(st, t, d);
    }
  }

  lemma {:induction false} StepLeases(st: State, step: Step)
    requires Excluding(st) && Enabled(st, step)
    ensures LeasesHeld(Apply(st, step))
  {
    var st' := Apply(st, step);
    if step.Does? {
      ActLeases(st, step.t, step.act);
      var mid := Acted(st, step.t, step.act);
      forall u: nat {:trigger Living(st', u)} | Living(st', u) && HoldsLease(st'.threads[u].pc)
        ensures st'.lease == Held(st'.threads[u].tree, u)
      {
        assert Living(mid, u);
      }
      assert st'.lease.Held? && Living(st', st'.lease.taker) ==> Living(mid, st'.lease.taker);
    } else {
      forall u: nat {:trigger Living(st', u)} | Living(st', u) && HoldsLease(st'.threads[u].pc)
        ensures st'.lease == Held(st'.threads[u].tree, u)
      {
        assert Living(st, u);
      }
      assert st'.lease.Held? && Living(st', st'.lease.taker) ==> Living(st, st'.lease.taker);
    }
  }

  lemma {:induction false} StepWrote(st: State, step: Step, u: nat, okAt: nat)
    requires Enabled(st, step) && Wrote(Apply(st, step), u, okAt)
    ensures u < |st.threads| && st.threads[u].tree == Apply(st, step).threads[u].tree
    ensures Wrote(st, u, okAt) || okAt == st.clock
  {
  }

  lemma {:induction false} StepReaping(st: State, step: Step, t: nat, at: nat)
    requires Enabled(st, step) && Reaping(Apply(st, step), t, at)
    ensures t < |st.threads| && st.threads[t].tree == Apply(st, step).threads[t].tree && Looking(st, t, at)
    ensures Reaping(st, t, at) || st.lease.Unheld? || st.lease.tree == st.threads[t].tree
  {
  }

  /** A thread's slot and its tree never change. */
  lemma {:induction false} SlotStep(st: State, step: Step, t: nat)
    requires Enabled(st, step) && Thrd(st, t)
    ensures Thrd(Apply(st, step), t) && Slot(Apply(st, step), t) == Slot(st, t)
    ensures Apply(st, step).threads[t].tree == st.threads[t].tree
  {
  }

  lemma {:induction false} ActLooking(st: State, t: nat, act: Act, at: nat)
    requires ActEnabled(st, t, act) && Looking(Acted(st, t, act), t, at)
    ensures (Looking(st, t, at) && Acted(st, t, act).threads[t].pc.word == st.threads[t].pc.word)
            || (act.Load? && at == st.clock && Acted(st, t, act).threads[t].pc.word == st.owner)
  {
  }

  /** The word a thread looks at is the one it had, or one it has just loaded. */
  lemma {:induction false} LookingStep(st: State, step: Step, t: nat, at: nat)
    requires Enabled(st, step) && Looking(Apply(st, step), t, at)
    ensures t < |st.threads| && Apply(st, step).threads[t].tree == st.threads[t].tree
    ensures (Looking(st, t, at) && Apply(st, step).threads[t].pc.word == st.threads[t].pc.word)
            || (step == Does(t, Load) && at == st.clock && Living(st, t) && Foreign(st.owner, Slot(st, t))
                && Apply(st, step).threads[t].pc.word == st.owner)
  {
    OthersStay(st, step, t);
    if step.Does? && step.t == t {
      ActLooking(st, t, step.act, at);
    }
  }

  lemma {:induction false} StepLooking(st: State, step: Step, t: nat, at: nat)
    requires Excluding(st) && Enabled(st, step) && Looking(Apply(st, step), t, at)
    ensures var st' := Apply(st, step);
            Thrd(st', t) && at < st'.clock && Foreign(st'.threads[t].pc.word, Slot(st', t))
  {
    LookingStep(st, step, t, at);
    SlotStep(st, step, t);
  }

  /** A reaper that was already past its probe does not outlive a later Ok of another tree. */
  lemma {:induction false} OldReaperSpares(st: State, t: nat, u: nat, at: nat, okAt: nat)
    requires Excluding(st) && Reaping(st, t, at) && (Wrote(st, u, okAt) || okAt == st.clock)
    requires u < |st.threads| && st.threads[u].tree != st.threads[t].tree
    ensures at < okAt
  {
    assert Looking(st, t, at);
  }

  lemma {:induction false} WroteHolds(st: State, u: nat, okAt: nat)
    requires Excluding(st) && u < |st.threads|
    ensures Wrote(st, u, okAt) ==> st.lease == Held(st.threads[u].tree, u)
  {
  }

  /** A probe that reads the byte free meets no living writer of another tree. */
  lemma {:induction false} NewReaperSpares(st: State, t: nat, u: nat, at: nat, okAt: nat)
    requires Excluding(st) && Looking(st, t, at) && (Wrote(st, u, okAt) || okAt == st.clock)
    requires st.lease.Unheld? || st.lease.tree == st.threads[t].tree
    requires u < |st.threads| && st.threads[u].tree != st.threads[t].tree
    ensures at < okAt
  {
    WroteHolds(st, u, okAt);
    assert Looking(st, t, at);
  }

  lemma {:induction false} StepReaperSpares(st: State, step: Step, t: nat, u: nat, at: nat, okAt: nat)
    requires Excluding(st) && Enabled(st, step)
    requires Reaping(Apply(st, step), t, at) && Wrote(Apply(st, step), u, okAt)
    requires Apply(st, step).threads[u].tree != Apply(st, step).threads[t].tree
    ensures at < okAt
  {
    StepReaping(st, step, t, at);
    StepWrote(st, step, u, okAt);
    if Reaping(st, t, at) {
      OldReaperSpares(st, t, u, at, okAt);
    } else {
      NewReaperSpares(st, t, u, at, okAt);
    }
  }

  lemma {:induction false} StepReapers(st: State, step: Step)
    requires Excluding(st) && Enabled(st, step)
    ensures ReapersSpare(Apply(st, step))
  {
    var st' := Apply(st, step);
    forall t: nat, at: nat {:trigger Looking(st', t, at)} | Looking(st', t, at)
      ensures Thrd(st', t) && at < st'.clock && Foreign(st'.threads[t].pc.word, Slot(st', t))
    {
      StepLooking(st, step, t, at);
    }
    forall t: nat, u: nat, at: nat, okAt: nat {:trigger Reaping(st', t, at), Wrote(st', u, okAt)}
      | Reaping(st', t, at) && Wrote(st', u, okAt) && st'.threads[u].tree != st'.threads[t].tree
      ensures at < okAt
    {
      StepReaperSpares(st, step, t, u, at, okAt);
    }
  }

  lemma {:induction false} StepLeased(st: State, step: Step)
    requires Excluding(st) && Enabled(st, step)
    ensures Excluding(Apply(st, step))
  {
    StepInv(st, step);
    StepSolo(st, step);
    StepLeases(st, step);
    StepReapers(st, step);
  }

  lemma {:induction false} InitLeased(st: State)
    requires Init(st) && st.solo
    ensures Excluding(st)
  {
  }

  lemma {:induction false} ExecLeased(st: State, steps: seq<Step>)
    requires Excluding(st) && Exec(st, steps).Some?
    ensures Excluding(Exec(st, steps).value)
    decreases |steps|
  {
    if steps != [] {
      StepLeased(st, steps[0]);
      ExecLeased(Apply(st, steps[0]), steps[1..]);
    }
  }

  // ---------------------------------------------------------------------------------------------
  // Main results, for every run in which each tree claims the edge one attempt at a time
  // ---------------------------------------------------------------------------------------------

  /**
   `Ok` and every writer after it: the lease byte is held, and no other living process has a writer of
   the edge, whatever epochs the two carry and even in the middle of a push.
   */
  lemma {:induction false} LivingWriterIsAlone(init: State, steps: seq<Step>, t: nat)
    requires Init(init) && init.solo && Exec(init, steps).Some?
    requires var st := Exec(init, steps).value; Living(st, t) && IsWriter(st.threads[t].pc)
    ensures var st := Exec(init, steps).value;
            && st.lease == Held(st.threads[t].tree, t)
            && forall u: nat {:trigger Living(st, u)} :: Living(st, u) && IsWriter(st.threads[u].pc) ==> u == t
  {
    InitLeased(init);
    ExecLeased(init, steps);
  }

  /**
   Reaper discipline, own tree included: a reap that may revoke a living writer whose Ok came before
   its load is by the writer's own tree, and the word it loaded does not name the tree's slot.
   */
  lemma {:induction false} AReapThatLoadsLaterIsItsOwn(init: State, steps: seq<Step>, r: nat, u: nat)
    requires Init(init) && init.solo && Exec(init, steps).Some?
    requires var st := Exec(init, steps).value;
             && Enabled(st, Does(r, Bump)) && Living(st, u) && IsWriter(st.threads[u].pc)
             && st.threads[u].pc.okAt <= st.threads[r].pc.at
    ensures var st := Exec(init, steps).value;
            st.threads[r].tree == st.threads[u].tree && Foreign(st.threads[r].pc.word, Slot(st, u))
  {
    InitLeased(init);
    ExecLeased(init, steps);
    var st := Exec(init, steps).value;
    assert Reaping(st, r, st.threads[r].pc.at) && Looking(st, r, st.threads[r].pc.at);
    assert Wrote(st, u, st.threads[u].pc.okAt);
  }

  /** One reap by thread `r`, from its load to the draw that outdates whoever holds the claim. */
  function Reap(r: nat): seq<Step> {
    [Does(r, Load), Does(r, Probe(true)), Does(r, Bump)]
  }

  /**
   And such a reap does revoke: of the reaps that begin once a claim has returned Ok, exactly those get
   through that the writer's own tree begins while the record names neither nobody nor its own slot.
   */
  lemma {:induction false} ALaterReapRevokesExactlyWhen(init: State, steps: seq<Step>, r: nat, u: nat)
    requires Init(init) && init.solo && Exec(init, steps).Some?
    requires var st := Exec(init, steps).value;
             && Living(st, u) && IsWriter(st.threads[u].pc) && Living(st, r) && st.threads[r].pc.Idle?
    ensures var st := Exec(init, steps).value;
            && (Exec(st, Reap(r)).Some? <==>
                  st.threads[r].tree == st.threads[u].tree && Foreign(st.owner, Slot(st, u)))
            && (Exec(st, Reap(r)).Some? ==> Revoked(Exec(st, Reap(r)).value, u))
  {
    InitLeased(init);
    ExecLeased(init, steps);
    ReapRevokes(Exec(init, steps).value, r, u);
  }

  /** Thread `u` is a living writer that no push will be accepted from. */
  predicate Revoked(st: State, u: nat) {
    Living(st, u) && IsWriter(st.threads[u].pc) && st.threads[u].pc.epoch < st.epoch
  }

  lemma {:induction false} ReapRevokes(st: State, r: nat, u: nat)
    requires Excluding(st) && Living(st, u) && IsWriter(st.threads[u].pc) && Living(st, r) && st.threads[r].pc.Idle?
    ensures Exec(st, Reap(r)).Some? <==>
            st.threads[r].tree == st.threads[u].tree && Foreign(st.owner, Slot(st, u))
    ensures Exec(st, Reap(r)).Some? ==> Revoked(Exec(st, Reap(r)).value, u)
  {
    assert st.lease == Held(st.threads[u].tree, u) && Drew(st, u, st.threads[u].pc.epoch);
    if Enabled(st, Does(r, Load)) {
      var loaded := Apply(st, Does(r, Load));
      var probed := Apply(loaded, Does(r, Probe(true)));
      assert probed.threads[r].pc.Probed? <==> st.threads[r].tree == st.threads[u].tree;
      assert Reap(r)[1..] == [Does(r, Probe(true)), Does(r, Bump)] && Reap(r)[1..][1..] == [Does(r, Bump)];
      assert Exec(st, Reap(r)) == Exec(probed, [Does(r, Bump)]);
      if probed.threads[r].pc.Probed? {
        var bumped := Apply(probed, Does(r, Bump));
        assert [Does(r, Bump)][1..] == [] && Exec(bumped, []) == Some(bumped);
      }
    }
  }

  // ---------------------------------------------------------------------------------------------
  // And when trees do not keep to one attempt at a time
  // ---------------------------------------------------------------------------------------------

  /** The action that ends a claim with an error, after its owner word was stored. */
  predicate Fails(st: State, t: nat, act: Act) {
    t < |st.threads| && ((act.Release? && st.threads[t].pc.Refused?) || (act.Unlease? && st.threads[t].pc.Unleasing?))
  }

  lemma {:induction false} ExecTaker(st: State, steps: seq<Step>)
    requires Inv(st) && TakerHolds(st) && Exec(st, steps).Some?
    ensures Inv(Exec(st, steps).value) && TakerHolds(Exec(st, steps).value)
    decreases |steps|
  {
    if steps != [] {
      StepInv(st, steps[0]);
      StepTaker(st, steps[0]);
      ExecTaker(Apply(st, steps[0]), steps[1..]);
    }
  }

  lemma {:induction false} StepTaker(st: State, step: Step)
    requires Inv(st) && TakerHolds(st) && Enabled(st, step)
    ensures TakerHolds(Apply(st, step))
  {
    var st' := Apply(st, step);
    assert st'.lease.Held? && Living(st', st'.lease.taker) && st'.lease == st.lease ==> Living(st, st.lease.taker);
  }

  /**
   An error leaves neither the caller's owner word in the record nor a byte that its thread took; if its
   tree makes one attempt at a time, the tree does not hold the byte at all.
   */
  lemma {:induction false} AnErrorLeavesNothing(init: State, steps: seq<Step>, t: nat, act: Act)
    requires Init(init) && Exec(init, steps).Some?
    requires Fails(Exec(init, steps).value, t, act) && Enabled(Exec(init, steps).value, Does(t, act))
    ensures var st := Exec(init, steps).value;
            var st' := Apply(st, Does(t, act));
            && st'.threads[t].pc == Idle
            && !(st'.owner.Owned? && st'.owner.epoch == st.threads[t].pc.epoch)
            && st'.lease != Held(st.threads[t].tree, t)
            && (init.solo ==> !HeldBy(st', st.threads[t].tree))
  {
    ExecTaker(init, steps);
    var st := Exec(init, steps).value;
    assert Living(st, t) && Drew(st, t, st.threads[t].pc.epoch);
    if init.solo {
      InitLeased(init);
      ExecLeased(init, steps);
      if HeldBy(st, st.threads[t].tree) {
        assert Living(st, st.lease.taker);
        assert BusyOf(st, st.lease.taker, st.lease.tree) && BusyOf(st, t, st.lease.tree);
      }
    }
  }

  /** The lease byte is held on tree `d`'s description. */
  predicate HeldBy(st: State, d: nat) {
    st.lease.Held? && st.lease.tree == d
  }

  /** After every prefix of the run the byte is tree `d`'s. */
  ghost predicate HeldThroughout(st: State, steps: seq<Step>, d: nat)
    requires Exec(st, steps).Some?
    decreases |steps|
  {
    HeldBy(st, d) && (steps != [] ==> HeldThroughout(Apply(st, steps[0]), steps[1..], d))
  }

  /** The step unlocks the byte on tree `d`'s description. */
  predicate UnlocksFor(st: State, step: Step, d: nat) {
    step == KernelUnlocks(d)
    || (step.Does? && step.act.Unlease? && step.t < |st.threads| && st.threads[step.t].tree == d)
  }

  lemma {:induction false} StepHeld(st: State, step: Step, d: nat)
    requires Enabled(st, step) && HeldBy(st, d)
    ensures HeldBy(Apply(st, step), d) <==> !UnlocksFor(st, step, d)
  {
  }

  /** Threads stay with their trees. */
  lemma {:induction false} StepUnlocksFor(st: State, step: Step, other: Step, d: nat)
    requires Enabled(st, step)
    ensures UnlocksFor(Apply(st, step), other, d) <==> UnlocksFor(st, other, d)
  {
  }

  lemma {:induction false} HeldExactlyWhen(st: State, steps: seq<Step>, d: nat)
    requires Exec(st, steps).Some? && HeldBy(st, d)
    ensures HeldThroughout(st, steps, d) <==> forall i :: 0 <= i < |steps| ==> !UnlocksFor(st, steps[i], d)
    decreases |steps|
  {
    if steps != [] {
      var st', rest := Apply(st, steps[0]), steps[1..];
      StepHeld(st, steps[0], d);
      forall i | 0 <= i < |rest| ensures UnlocksFor(st', rest[i], d) <==> UnlocksFor(st, steps[i + 1], d) {
        StepUnlocksFor(st, steps[0], steps[i + 1], d);
      }
      assert (forall i :: 0 <= i < |steps| ==> !UnlocksFor(st, steps[i], d))
        <==> !UnlocksFor(st, steps[0], d) && forall i :: 0 <= i < |rest| ==> !UnlocksFor(st', rest[i], d);
      if HeldBy(st', d) {
        HeldExactlyWhen(st', rest, d);
      }
    }
  }

  lemma {:induction false} NoKernelUnlock(st: State, steps: seq<Step>, d: nat, i: nat)
    requires Exec(st, steps).Some? && i < |steps| && steps[i] == KernelUnlocks(d)
    requires d < |Exec(st, steps).value.trees| && Exec(st, steps).value.trees[d].alive
    ensures false
    decreases |steps|
  {
    if i > 0 {
      NoKernelUnlock(Apply(st, steps[0]), steps[1..], d, i - 1);
    } else {
      DeadStay(Apply(st, steps[0]), steps[1..], d);
    }
  }

  lemma {:induction false} DeadStay(st: State, steps: seq<Step>, d: nat)
    requires Exec(st, steps).Some? && d < |st.trees| && !st.trees[d].alive
    ensures d < |Exec(st, steps).value.trees| && !Exec(st, steps).value.trees[d].alive
    decreases |steps|
  {
    if steps != [] {
      DeadStay(Apply(st, steps[0]), steps[1..], d);
    }
  }

  /**
   Over any run that a thread lives through without unlocking, the byte it holds is its tree's after
   every step exactly when no other thread of its tree unlocks in the run: they share the description.
   */
  lemma {:induction false} LeaseLostExactlyToASibling(st: State, steps: seq<Step>, u: nat)
    requires Exec(st, steps).Some? && Living(Exec(st, steps).value, u)
    requires u < |st.threads| && st.threads[u].tree < |st.trees| && HeldBy(st, st.threads[u].tree)
    requires st.threads[u].tree == Exec(st, steps).value.threads[u].tree
    requires forall i :: 0 <= i < |steps| ==> steps[i] != Does(u, Unlease)
    ensures HeldThroughout(st, steps, st.threads[u].tree)
            <==> forall i :: 0 <= i < |steps| ==> !SiblingUnlocks(st, steps[i], u)
  {
    var d := st.threads[u].tree;
    HeldExactlyWhen(st, steps, d);
    forall i | 0 <= i < |steps| ensures UnlocksFor(st, steps[i], d) <==> SiblingUnlocks(st, steps[i], u) {
      if steps[i] == KernelUnlocks(d) {
        NoKernelUnlock(st, steps, d, i);
      }
    }
  }

  predicate SiblingUnlocks(st: State, step: Step, u: nat)
    requires u < |st.threads|
  {
    && step.Does? && step.act.Unlease?
    && step.t != u && step.t < |st.threads| && st.threads[step.t].tree == st.threads[u].tree
  }
}
