/**
 Trees that do not keep to one attempt at a time, in every run: what the lease byte still excludes, and
 what it takes for it not to.
 */
module ClaimSiblings {
  import opened Options
  import opened Claims
  import opened ClaimLeases
  import opened ClaimRuns

  /** The last step of a run, and the run before it. */
  lemma {:induction false} ExecLast(st: State, steps: seq<Step>)
    requires steps != [] && Exec(st, steps).Some?
    ensures var before := steps[..|steps| - 1];
            && Exec(st, before).Some? && Enabled(Exec(st, before).value, steps[|steps| - 1])
            && Exec(st, steps).value == Apply(Exec(st, before).value, steps[|steps| - 1])
    decreases |steps|
  {
    var st', rest := Apply(st, steps[0]), steps[1..];
    if rest == [] {
      assert steps[..|steps| - 1] == [] && Exec(st', rest) == Some(st');
    } else {
      ExecLast(st', rest);
      assert steps[..|steps| - 1][1..] == rest[..|rest| - 1];
    }
  }

  predicate TakesLease(step: Step, t: nat) {
    step.Does? && step.t == t && step.act.TakeLease?
  }

  /** Step `i` is another thread of `t`'s tree unlocking the byte, and `t` has not asked for it since. */
  predicate CutAt(init: State, steps: seq<Step>, t: nat, i: nat) {
    && t < |init.threads| && i < |steps| && SiblingUnlocks(init, steps[i], t)
    && forall j :: i < j < |steps| ==> !TakesLease(steps[j], t)
  }

  ghost predicate CutSinceLease(init: State, steps: seq<Step>, t: nat) {
    exists i: nat {:trigger CutAt(init, steps, t, i)} :: CutAt(init, steps, t, i)
  }

  lemma {:induction false} SameTrees(st: State, steps: seq<Step>)
    requires Exec(st, steps).Some?
    ensures |Exec(st, steps).value.threads| == |st.threads|
    ensures forall t: nat {:trigger st.threads[t]} :: t < |st.threads|
              ==> Exec(st, steps).value.threads[t].tree == st.threads[t].tree
    decreases |steps|
  {
    if steps != [] {
      forall t: nat {:trigger st.threads[t]} | t < |st.threads|
        ensures Apply(st, steps[0]).threads[t].tree == st.threads[t].tree
      {
        OthersStay(st, steps[0], t);
      }
      OthersStay(st, steps[0], 0);
      SameTrees(Apply(st, steps[0]), steps[1..]);
    }
  }

  lemma {:induction false} ActHolds(st: State, t: nat, act: Act)
    requires ActEnabled(st, t, act) && HoldsLease(Acted(st, t, act).threads[t].pc)
    ensures act != Unlease
    ensures if act.TakeLease? then Acted(st, t, act).lease == Held(st.threads[t].tree, t)
            else HoldsLease(st.threads[t].pc)
  {
  }

  lemma {:induction false} StepHolds(st: State, step: Step, t: nat)
    requires Enabled(st, step) && Living(Apply(st, step), t) && HoldsLease(Apply(st, step).threads[t].pc)
    ensures Living(st, t) && Apply(st, step).threads[t].tree == st.threads[t].tree && step != Does(t, Unlease)
    ensures TakesLease(step, t) ==> HeldBy(Apply(st, step), st.threads[t].tree)
    ensures !TakesLease(step, t) ==> HoldsLease(st.threads[t].pc)
  {
    OthersStay(st, step, t);
    StepAlive(st, step, st.threads[t].tree);
    if step.Does? && step.t == t {
      ActHolds(st, t, step.act);
    }
  }

  lemma {:induction false} StepAlive(st: State, step: Step, d: nat)
    requires Enabled(st, step) && d < |Apply(st, step).trees| && Apply(st, step).trees[d].alive
    ensures d < |st.trees| && st.trees[d].alive && step != KernelUnlocks(d)
  {
  }

  /** Between taking the lease and giving it back, the byte stays the tree's but for a sibling. */
  lemma {:induction false} HeldUnlessCut(st: State, step: Step, t: nat)
    requires Enabled(st, step) && Living(Apply(st, step), t) && HoldsLease(Apply(st, step).threads[t].pc)
    requires t < |st.threads| && HeldBy(st, st.threads[t].tree)
    ensures HeldBy(Apply(st, step), st.threads[t].tree) || SiblingUnlocks(st, step, t)
  {
    var d := st.threads[t].tree;
    StepHolds(st, step, t);
    StepAlive(st, step, d);
    StepHeld(st, step, d);
  }

  /** Past `TakeLease` the byte is the tree's, unless a sibling has unlocked it since. */
  lemma {:induction false} HeldOrCut(init: State, steps: seq<Step>, t: nat)
    requires Init(init) && Exec(init, steps).Some?
    requires Living(Exec(init, steps).value, t) && HoldsLease(Exec(init, steps).value.threads[t].pc)
    ensures HeldBy(Exec(init, steps).value, Exec(init, steps).value.threads[t].tree) || CutSinceLease(init, steps, t)
    decreases |steps|
  {
    if steps != [] {
      var n := |steps| - 1;
      ExecLast(init, steps);
      var st := Exec(init, steps[..n]).value;
      StepHolds(st, steps[n], t);
      if !TakesLease(steps[n], t) {
        HeldOrCut(init, steps[..n], t);
        SameTrees(init, steps[..n]);
        if HeldBy(st, st.threads[t].tree) {
          HeldUnlessCut(st, steps[n], t);
          assert SiblingUnlocks(st, steps[n], t) ==> CutAt(init, steps, t, n);
        } else {
          CutGrows(init, steps, t);
        }
      }
    }
  }

  lemma {:induction false} CutGrows(init: State, steps: seq<Step>, t: nat)
    requires steps != [] && !TakesLease(steps[|steps| - 1], t) && CutSinceLease(init, steps[..|steps| - 1], t)
    ensures CutSinceLease(init, steps, t)
  {
    var i: nat :| CutAt(init, steps[..|steps| - 1], t, i);
    assert CutAt(init, steps, t, i);
  }

  /**
   Two living processes have a writer of one edge only after a second thread of one of them unlocked the
   byte, its writer's lease already taken.
   */
  lemma {:induction false} TwoWritingTreesNeedACut(init: State, steps: seq<Step>, t: nat, u: nat)
    requires Init(init) && Exec(init, steps).Some?
    requires var st := Exec(init, steps).value;
             && Living(st, t) && IsWriter(st.threads[t].pc) && Living(st, u) && IsWriter(st.threads[u].pc)
             && st.threads[t].tree != st.threads[u].tree
    ensures CutSinceLease(init, steps, t) || CutSinceLease(init, steps, u)
  {
    HeldOrCut(init, steps, t);
    HeldOrCut(init, steps, u);
  }

  /** Thread 0's writer is revoked by a reap, and is on its way to unlock the byte. */
  lemma {:induction false} AboutToUnlock(init: State) returns (run: seq<Step>, st: State)
    requires init == NewEdge(false)
    ensures Exec(init, run) == Some(st)
    ensures st == init.(clock := 10, epoch := 2, lease := Held(0, 0), threads := st.threads)
    ensures st.threads == [Thread(0, Unleasing(1)), Thread(0, Idle), Thread(1, Idle), Thread(2, Idle)]
  {
    run, st := OkUnderAReaper(init);
    run, st := Then(init, run, st, 2, Bump);
    run, st := Then(init, run, st, 2, Clear);
    run, st := Then(init, run, st, 0, Release);
  }

  /** Its sibling takes the lease, loses it to that unlock, and its claim returns Ok all the same. */
  lemma {:induction false} OkWithoutTheLease(init: State) returns (run: seq<Step>, st: State)
    requires init == NewEdge(false)
    ensures Exec(init, run) == Some(st)
    ensures st == init.(clock := 16, owner := Owned(3, 0), epoch := 3, threads := st.threads)
    ensures st.threads == [Thread(0, Idle), Thread(0, Writing(3, 15)), Thread(1, Idle), Thread(2, Idle)]
  {
    run, st := AboutToUnlock(init);
    run, st := Then(init, run, st, 1, Swap);
    run, st := Then(init, run, st, 1, Number);
    run, st := Then(init, run, st, 1, Store);
    run, st := Then(init, run, st, 1, TakeLease(true));
    run, st := Then(init, run, st, 0, Unlease);
    run, st := Then(init, run, st, 1, Check);
  }

  lemma {:induction false} AnotherTreeClaims(mid: State) returns (run: seq<Step>, st: State)
    requires |mid.threads| == 4 && |mid.trees| == 3 && mid.lease == Unheld && mid.owner == Owned(3, 0) && !mid.solo
    requires mid.trees == NewEdge(false).trees && mid.threads[2] == Thread(1, Idle)
    ensures Exec(mid, run) == Some(st) && st.trees == mid.trees
    ensures |st.threads| == 4 && st.threads[1] == mid.threads[1]
    ensures st.threads[2].tree == 1 && IsWriter(st.threads[2].pc)
  {
    run, st := ReapsEdge(mid, [], mid, 2);
    run, st := ClaimsEdge(mid, run, st, 2);
  }

  /**
   The unlock may come before the Ok: the re-check does not look at the byte, and nobody holds it when
   thread 1's claim returns. Another tree then reaps and claims, and two processes have a writer.
   */
  lemma {:induction false} TheCutMayPrecedeTheOk() returns (init: State, before: seq<Step>, run: seq<Step>)
    ensures Init(init) && Exec(init, before).Some? && Exec(Exec(init, before).value, run).Some?
    ensures var mid := Exec(init, before).value; Wrote(mid, 1, 15) && mid.clock == 16 && mid.lease == Unheld
    ensures var st := Exec(Exec(init, before).value, run).value;
            && Living(st, 1) && IsWriter(st.threads[1].pc) && Living(st, 2) && IsWriter(st.threads[2].pc)
            && st.threads[1].tree != st.threads[2].tree
  {
    init := NewEdge(false);
    var mid, st;
    before, mid := OkWithoutTheLease(init);
    run, st := AnotherTreeClaims(mid);
  }
}
