/**
 Which pushes are accepted, over runs. A push tests its writer's epoch once and then writes, so a push
 that was accepted before a draw may end after it; but none is accepted after, and between two draws
 all that are accepted are of one thread.
 */
module ClaimPushes {
  import opened Options
  import opened Claims

  /** Thread `t` pushes here, and the push passes the epoch test. */
  ghost predicate Accepted(st: State, t: nat) {
    Enabled(st, Does(t, Push)) && Apply(st, Does(t, Push)).threads[t].pc.Pushing?
  }

  /** A writer that a draw has outdated, and that is not in the middle of a push. */
  predicate Outdated(st: State, t: nat) {
    t < |st.threads| && st.threads[t].pc.Writing? && st.threads[t].pc.epoch < st.epoch
  }

  lemma {:induction false} ActOutdated(st: State, u: nat, act: Act, t: nat)
    requires ActEnabled(st, u, act) && Outdated(st, t) && !(u == t && act == Release)
    ensures Outdated(Acted(st, u, act), t)
  {
  }

  lemma {:induction false} StepOutdated(st: State, step: Step, t: nat)
    requires Enabled(st, step) && Outdated(st, t) && step != Does(t, Release)
    ensures Outdated(Apply(st, step), t)
  {
    if step.Does? {
      ActOutdated(st, step.t, step.act, t);
    }
  }

  /** An outdated writer stays one until it is dropped: no push of its is accepted, in any run. */
  lemma {:induction false} ARevokedWriterNeverPushes(st: State, steps: seq<Step>, t: nat)
    requires Outdated(st, t) && Exec(st, steps).Some?
    requires forall i :: 0 <= i < |steps| ==> steps[i] != Does(t, Release)
    ensures Outdated(Exec(st, steps).value, t) && !Accepted(Exec(st, steps).value, t)
    decreases |steps|
  {
    if steps == [] {
      assert Exec(st, steps) == Some(st);
      if Enabled(st, Does(t, Push)) {
        StepOutdated(st, Does(t, Push), t);
      }
    } else {
      StepOutdated(st, steps[0], t);
      assert forall i :: 0 <= i < |steps[1..]| ==> steps[1..][i] == steps[i + 1];
      ARevokedWriterNeverPushes(Apply(st, steps[0]), steps[1..], t);
    }
  }

  /** Without a draw, whoever has epoch `e` had it before. */
  lemma {:induction false} DrewBefore(st: State, steps: seq<Step>, t: nat, e: nat)
    requires Exec(st, steps).Some? && Drew(Exec(st, steps).value, t, e)
    requires forall i :: 0 <= i < |steps| ==> !Draws(steps[i])
    ensures Drew(st, t, e)
    decreases |steps|
  {
    if steps != [] {
      assert forall i :: 0 <= i < |steps[1..]| ==> steps[1..][i] == steps[i + 1];
      DrewBefore(Apply(st, steps[0]), steps[1..], t, e);
      StepDrew(st, steps[0], t, e);
    }
  }

  lemma {:induction false} AcceptedIsCurrent(st: State, t: nat)
    requires Accepted(st, t)
    ensures Drew(st, t, st.epoch) && Drew(Apply(st, Does(t, Push)), t, st.epoch)
    ensures Apply(st, Does(t, Push)).epoch == st.epoch
  {
  }

  /**
   Claim exclusivity as a push sees it: in every run, two pushes that are accepted with no draw of an epoch
   between them are of one thread, whatever claims, drops, dies or unlocks in the meantime.
   */
  lemma {:induction false} OnePusherBetweenDraws(init: State, before: seq<Step>, t: nat, steps: seq<Step>, u: nat)
    requires Init(init) && Exec(init, before).Some? && Accepted(Exec(init, before).value, t)
    requires var pushed := Apply(Exec(init, before).value, Does(t, Push));
             Exec(pushed, steps).Some? && Accepted(Exec(pushed, steps).value, u)
    requires forall i :: 0 <= i < |steps| ==> !Draws(steps[i])
    ensures u == t
  {
    ExecInv(init, before);
    var st := Exec(init, before).value;
    var pushed := Apply(st, Does(t, Push));
    AcceptedIsCurrent(st, t);
    AcceptedIsCurrent(Exec(pushed, steps).value, u);
    EpochCountsDraws(pushed, steps);
    NoDrawsExactlyWhen(steps);
    DrewBefore(pushed, steps, u, st.epoch);
    StepInv(st, Does(t, Push));
  }

  /** And a writer whose epoch is current does push: the test refuses nobody else. */
  lemma {:induction false} ACurrentWriterPushes(st: State, t: nat)
    requires Living(st, t) && st.threads[t].pc.Writing?
    ensures Accepted(st, t) <==> st.threads[t].pc.epoch == st.epoch
    ensures Apply(st, Does(t, Push)).owner == st.owner && Apply(st, Does(t, Push)).epoch == st.epoch
  {
  }
}
