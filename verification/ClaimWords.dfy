/**
 What a claim's Ok says of the owner word. The re-check sees every draw of an epoch since the claim's
 own, and none before it; a reaper or a slower claimer that drew before still has its store to make.
 Whoever asks, at the moment a claim stores its word, whether such a thread is under way, knows.
 */
module ClaimWords {
  import opened Options
  import opened Claims
  import opened ClaimLeases

  /** From the draw of a claim's epoch on: its re-check returns Ok exactly when nobody drew one since. */
  lemma {:induction false} OkExactlyWhenNoDraw(st: State, steps: seq<Step>, t: nat)
    requires Inv(st) && t < |st.threads| && st.threads[t].pc == Numbered(st.epoch)
    requires Exec(st, steps).Some? && Enabled(Exec(st, steps).value, Does(t, Check))
    requires Exec(st, steps).value.threads[t].pc.epoch == st.epoch
    ensures IsWriter(Apply(Exec(st, steps).value, Does(t, Check)).threads[t].pc)
            <==> forall i :: 0 <= i < |steps| ==> !Draws(steps[i])
  {
    EpochCountsDraws(st, steps);
    NoDrawsExactlyWhen(steps);
  }

  /** Thread `u` lives and is about to store the owner word, whatever it holds by then. */
  predicate Late(st: State, u: nat) {
    Living(st, u) && (st.threads[u].pc.Bumped? || st.threads[u].pc.Numbered?)
  }

  /** A reaper past its draw, or a slower claimer past its own, will overwrite what thread `t` stores. */
  ghost predicate UnderWay(st: State, t: nat) {
    exists u: nat {:trigger Late(st, u)} :: u != t && Late(st, u)
  }

  /** Between storing the owner word and taking it out. */
  predicate Keeps(pc: Pc) {
    HasEpoch(pc) && !pc.Numbered? && !pc.Unleasing?
  }

  predicate KeepsWord(st: State, t: nat, e: nat) {
    Drew(st, t, e) && Keeps(st.threads[t].pc) ==> Thrd(st, t) && st.owner == Owned(e, Slot(st, t))
  }

  lemma {:induction false} OthersKeepWord(st: State, u: nat, act: Act, t: nat, e: nat)
    requires Inv(st) && ActEnabled(st, u, act) && u != t && !act.Clear? && !act.Store?
    requires Drew(st, t, e) && Keeps(st.threads[t].pc) && Thrd(st, t) && st.owner == Owned(e, Slot(st, t))
    ensures Acted(st, u, act).owner == st.owner
  {
    assert act.Release? ==> Drew(st, u, st.threads[u].pc.epoch);
  }

  lemma {:induction false} OwnKeepsWord(st: State, t: nat, act: Act, e: nat)
    requires Inv(st) && ActEnabled(st, t, act) && KeepsWord(st, t, e)
    requires Drew(st, t, e)
    ensures KeepsWord(Acted(st, t, act), t, e)
  {
  }

  lemma {:induction false} ActKeepsWord(st: State, u: nat, act: Act, t: nat, e: nat)
    requires Inv(st) && ActEnabled(st, u, act) && st.epoch == e == Acted(st, u, act).epoch
    requires !UnderWay(st, t) && KeepsWord(st, t, e)
    ensures KeepsWord(Acted(st, u, act), t, e)
  {
    StepDrewHere(st, u, act, t, e);
    if Drew(Acted(st, u, act), t, e) {
      if u == t {
        OwnKeepsWord(st, t, act, e);
      } else if Keeps(st.threads[t].pc) {
        assert act.Clear? || act.Store? ==> Late(st, u);
        OthersKeepWord(st, u, act, t, e);
      }
    }
  }

  lemma {:induction false} StepDrewHere(st: State, u: nat, act: Act, t: nat, e: nat)
    requires ActEnabled(st, u, act) && e <= st.epoch
    ensures Drew(Acted(st, u, act), t, e) ==> Drew(st, t, e)
    ensures u != t && t < |st.threads| ==> Acted(st, u, act).threads[t] == st.threads[t]
  {
  }

  lemma {:induction false} QuietStep(st: State, step: Step, t: nat, e: nat)
    requires Inv(st) && Enabled(st, step) && st.epoch == e == Apply(st, step).epoch
    requires !UnderWay(st, t) && KeepsWord(st, t, e)
    ensures !UnderWay(Apply(st, step), t) && KeepsWord(Apply(st, step), t, e)
  {
    var st' := Apply(st, step);
    assert forall u: nat {:trigger Late(st', u)} :: Late(st', u) ==> Late(st, u);
    if step.Does? {
      ActKeepsWord(st, step.t, step.act, t, e);
    }
  }

  lemma {:induction false} QuietRun(st: State, steps: seq<Step>, t: nat, e: nat)
    requires Inv(st) && Exec(st, steps).Some? && st.epoch == e == Exec(st, steps).value.epoch
    requires !UnderWay(st, t) && KeepsWord(st, t, e)
    ensures !UnderWay(Exec(st, steps).value, t) && KeepsWord(Exec(st, steps).value, t, e)
    decreases |steps|
  {
    if steps != [] {
      var st' := Apply(st, steps[0]);
      EpochCountsDraws(st, [steps[0]]);
      EpochCountsDraws(st', steps[1..]);
      StepInv(st, steps[0]);
      assert st'.epoch >= st.epoch;
      QuietStep(st, steps[0], t, e);
      QuietRun(st', steps[1..], t, e);
    }
  }

  // ---------------------------------------------------------------------------------------------
  // The exact condition
  // ---------------------------------------------------------------------------------------------

  /** Thread `t` has just stored its word, at the current epoch. */
  predicate JustStored(st: State, t: nat) {
    Living(st, t) && st.threads[t].pc == Stored(st.epoch) && st.owner == Owned(st.epoch, Slot(st, t))
  }

  /** The lease byte can be had: nobody holds it, or the tree does. */
  predicate LeaseOpen(st: State, t: nat) {
    st.lease.Held? ==> t < |st.threads| && st.lease.tree == st.threads[t].tree
  }

  /** Thread `t` is a living writer whom the record names, its epoch current: its pushes are accepted. */
  predicate Stands(st: State, t: nat) {
    && Living(st, t) && IsWriter(st.threads[t].pc) && st.threads[t].pc.epoch == st.epoch
    && st.owner == Owned(st.epoch, Slot(st, t))
  }

  /** The claim of thread `t` is about to return Ok: its re-check is next, and finds the epoch it drew. */
  ghost predicate OkNext(st: State, steps: seq<Step>, t: nat) {
    Exec(st, steps).Some? &&
    var now := Exec(st, steps).value;
    Living(now, t) && now.threads[t].pc == Leased(st.epoch) && now.epoch == st.epoch
  }

  /** However the claim comes to return Ok, its word is in the record by then. */
  ghost predicate KeptUntilOk(st: State, t: nat) {
    forall steps {:trigger OkNext(st, steps, t)} :: OkNext(st, steps, t)
      ==> Stands(Apply(Exec(st, steps).value, Does(t, Check)), t)
  }

  /** The lease, and then the store that was under way. */
  function LateRun(st: State, t: nat, u: nat): seq<Step>
    requires u < |st.threads|
  {
    [Does(t, TakeLease(true)), Does(u, if st.threads[u].pc.Bumped? then Clear else Store)]
  }

  lemma {:induction false} LateStoreWins(st: State, t: nat, u: nat)
    requires Inv(st) && JustStored(st, t) && LeaseOpen(st, t) && u != t && Late(st, u)
    ensures OkNext(st, LateRun(st, t, u), t)
    ensures !Stands(Apply(Exec(st, LateRun(st, t, u)).value, Does(t, Check)), t)
  {
    var run := LateRun(st, t, u);
    var leased := Apply(st, run[0]);
    assert st.threads[u].pc.Numbered? ==> Drew(st, u, st.threads[u].pc.epoch) && Drew(st, t, st.epoch);
    var late := Apply(leased, run[1]);
    assert run[1..] == [run[1]] && run[1..][1..] == [];
    assert Exec(late, []) == Some(late) && Exec(leased, [run[1]]) == Some(late);
  }

  /**
   Take any claim that has just stored its word, its epoch current. If at that moment no other living
   thread is between its own draw and its store of the owner word, then however the claim comes to return
   Ok, the record names it at that Ok. If one is, and the lease can be had, some run to Ok loses the word.
   */
  lemma {:induction false} OkFindsTheWordExactlyWhen(st: State, t: nat)
    requires Inv(st) && JustStored(st, t)
    ensures !UnderWay(st, t) ==> KeptUntilOk(st, t)
    ensures LeaseOpen(st, t) ==> (KeptUntilOk(st, t) <==> !UnderWay(st, t))
  {
    if !UnderWay(st, t) {
      forall steps {:trigger OkNext(st, steps, t)} | OkNext(st, steps, t)
        ensures Stands(Apply(Exec(st, steps).value, Does(t, Check)), t)
      {
        QuietRun(st, steps, t, st.epoch);
        assert Drew(Exec(st, steps).value, t, st.epoch);
      }
    } else if LeaseOpen(st, t) {
      var u: nat :| u != t && Late(st, u);
      LateStoreWins(st, t, u);
    }
  }
}
