/**
 Who can still harm a claim once it has returned Ok. A draw of an epoch outdates the writer, and a
 store takes its word out of the record; both are unconditional, and come from threads that were on
 their way before. Whoever asks, at the Ok or later, whether there is such a thread, knows.
 */
module ClaimThreats {
  import opened Options
  import opened Claims
  import opened ClaimLeases
  import opened ClaimWords

  /**
   Thread `u` may yet draw an epoch or store the owner word over thread `t`'s claim: a claimer that has
   swapped but not stored, a reaper past its probe, or one before it whose probe does not see `t`'s lease.
   */
  predicate Threat(st: State, t: nat, u: nat) {
    u != t && Living(st, u) && t < |st.threads| &&
    var pc := st.threads[u].pc;
    || pc.Swapped? || pc.Numbered? || pc.Probed? || pc.Bumped?
    || (pc.Loaded? && st.threads[u].tree == st.threads[t].tree)
  }

  lemma {:induction false} OwnActStands(st: State, t: nat, act: Act)
    requires Stands(st, t) && ActEnabled(st, t, act) && act != Release
    ensures Stands(Acted(st, t, act), t) && Acted(st, t, act).epoch == st.epoch
  {
  }

  /** A standing writer holds the lease, its tree has no other claim, and nobody else has its epoch. */
  lemma {:induction false} StandingAlone(st: State, t: nat, u: nat)
    requires Excluding(st) && Stands(st, t) && u != t && Living(st, u) && Busy(st.threads[u].pc)
    ensures st.lease == Held(st.threads[t].tree, t) && !HoldsLease(st.threads[u].pc)
    ensures st.threads[u].tree != st.threads[t].tree
    ensures HasEpoch(st.threads[u].pc) ==> st.threads[u].pc.epoch != st.epoch
  {
    assert Drew(st, t, st.epoch) && (HasEpoch(st.threads[u].pc) ==> Drew(st, u, st.threads[u].pc.epoch));
    assert BusyOf(st, t, st.threads[t].tree) && BusyOf(st, u, st.threads[u].tree);
  }

  /** A thread that is no threat leaves epoch and word alone, and becomes none. */
  lemma {:induction false} HarmlessAct(st: State, t: nat, u: nat, act: Act)
    requires Excluding(st) && Stands(st, t) && u != t && ActEnabled(st, u, act) && !Threat(st, t, u)
    ensures Stands(Acted(st, u, act), t) && Acted(st, u, act).epoch == st.epoch
    ensures !Threat(Acted(st, u, act), t, u)
  {
    if Busy(st.threads[u].pc) {
      StandingAlone(st, t, u);
    } else {
      assert Living(st, t) && HoldsLease(st.threads[t].pc);
    }
  }

  lemma {:induction false} HarmlessStep(st: State, t: nat, step: Step)
    requires Excluding(st) && Stands(st, t) && Enabled(st, step) && step != Does(t, Release)
    requires Living(Apply(st, step), t) && !(step.Does? && Threat(st, t, step.t))
    ensures Stands(Apply(st, step), t) && Apply(st, step).epoch == st.epoch
  {
    SlotStep(st, step, t);
    if step.Does? {
      if step.t == t {
        OwnActStands(st, t, step.act);
      } else {
        HarmlessAct(st, t, step.t, step.act);
      }
    }
  }

  /** No thread becomes a threat to a standing writer. */
  lemma {:induction false} NoNewThreat(st: State, t: nat, u: nat, step: Step)
    requires Excluding(st) && Stands(st, t) && Enabled(st, step) && Threat(Apply(st, step), t, u)
    ensures Threat(st, t, u)
  {
    OthersStay(st, step, u);
    OthersStay(st, step, t);
    if step.Does? && step.t == u && !Threat(st, t, u) {
      HarmlessAct(st, t, u, step.act);
    }
  }

  // ---------------------------------------------------------------------------------------------
  // Main results, for every run in which each tree claims the edge one attempt at a time
  // ---------------------------------------------------------------------------------------------

  /** Thread `t` lives through the run, and does not drop its writer. */
  ghost predicate LivesOn(st: State, steps: seq<Step>, t: nat) {
    && Exec(st, steps).Some? && Living(Exec(st, steps).value, t)
    && forall i :: 0 <= i < |steps| ==> steps[i] != Does(t, Release)
  }

  /** The run leaves the writer its epoch and its word. */
  ghost predicate Spared(st: State, steps: seq<Step>, t: nat)
    requires Exec(st, steps).Some?
  {
    Stands(Exec(st, steps).value, t) && Exec(st, steps).value.epoch == st.epoch
  }

  /** Step `i` of the run is the first that harms the writer, and its thread was a threat at the start. */
  ghost predicate FirstHarm(st: State, steps: seq<Step>, t: nat, i: nat) {
    && i < |steps| && steps[i].Does? && Threat(st, t, steps[i].t)
    && Exec(st, steps[..i]).Some? && Exec(st, steps[..i + 1]).Some?
    && Spared(st, steps[..i], t) && !Spared(st, steps[..i + 1], t)
  }

  lemma {:induction false} OnlyAThreatHarms(st: State, steps: seq<Step>, t: nat) returns (i: nat)
    requires Excluding(st) && Stands(st, t) && LivesOn(st, steps, t) && !Spared(st, steps, t)
    ensures FirstHarm(st, steps, t, i)
    decreases |steps|
  {
    assert steps != [] && Exec(st, steps[..0]) == Some(st);
    var st', rest := Apply(st, steps[0]), steps[1..];
    StillLiving(st, steps, t);
    if Stands(st', t) && st'.epoch == st.epoch {
      StepLeased(st, steps[0]);
      assert forall j :: 0 <= j < |rest| ==> rest[j] == steps[j + 1];
      var j := OnlyAThreatHarms(st', rest, t);
      NoNewThreat(st, t, rest[j].t, steps[0]);
      FirstHarmLater(st, steps, t, j);
      i := j + 1;
    } else {
      if !(steps[0].Does? && Threat(st, t, steps[0].t)) {
        HarmlessStep(st, t, steps[0]);
      }
      assert steps[..1][1..] == [] && Exec(st', []) == Some(st');
      i := 0;
    }
  }

  lemma {:induction false} FirstHarmLater(st: State, steps: seq<Step>, t: nat, j: nat)
    requires steps != [] && Enabled(st, steps[0]) && Apply(st, steps[0]).epoch == st.epoch
    requires FirstHarm(Apply(st, steps[0]), steps[1..], t, j) && Threat(st, t, steps[j + 1].t)
    ensures FirstHarm(st, steps, t, j + 1)
  {
    assert steps[..j + 1][1..] == steps[1..][..j] && steps[..j + 2][1..] == steps[1..][..j + 1];
  }

  lemma {:induction false} StillLiving(st: State, steps: seq<Step>, t: nat)
    requires steps != [] && Thrd(st, t) && LivesOn(st, steps, t)
    ensures Living(Apply(st, steps[0]), t)
  {
    SlotStep(st, steps[0], t);
    if !Living(Apply(st, steps[0]), t) {
      SlotStays(Apply(st, steps[0]), steps[1..], t);
      DeadStay(Apply(st, steps[0]), steps[1..], st.threads[t].tree);
    }
  }

  lemma {:induction false} SlotStays(st: State, steps: seq<Step>, t: nat)
    requires Exec(st, steps).Some? && Thrd(st, t)
    ensures Thrd(Exec(st, steps).value, t) && Slot(Exec(st, steps).value, t) == Slot(st, t)
    ensures Exec(st, steps).value.threads[t].tree == st.threads[t].tree
    decreases |steps|
  {
    if steps != [] {
      SlotStep(st, steps[0], t);
      SlotStays(Apply(st, steps[0]), steps[1..], t);
    }
  }

  /** What a threat does next, on its own. */
  function HarmBy(st: State, u: nat): seq<Step>
    requires u < |st.threads|
  {
    match st.threads[u].pc
    case Swapped => [Does(u, Number)]
    case Numbered(_) => [Does(u, Store)]
    case Probed(_, _) => [Does(u, Bump)]
    case Bumped(_, _) => [Does(u, Clear)]
    case _ => [Does(u, Probe(true)), Does(u, Bump)]
  }

  lemma {:induction false} AThreatCanHarm(st: State, t: nat, u: nat)
    requires Excluding(st) && Stands(st, t) && Threat(st, t, u)
    ensures LivesOn(st, HarmBy(st, u), t) && !Spared(st, HarmBy(st, u), t)
  {
    var run := HarmBy(st, u);
    var next := Apply(st, run[0]);
    assert st.lease == Held(st.threads[t].tree, t);
    assert st.threads[u].pc.Numbered? ==> Drew(st, u, st.threads[u].pc.epoch) && Drew(st, t, st.epoch);
    if |run| == 1 {
      assert run[1..] == [] && Exec(next, []) == Some(next);
    } else {
      var last := Apply(next, run[1]);
      assert run[1..] == [run[1]] && run[1..][1..] == [] && Exec(last, []) == Some(last);
    }
  }

  /** Whatever happens, as long as thread `t` lives and keeps its writer. */
  ghost predicate Safe(st: State, t: nat) {
    forall steps {:trigger LivesOn(st, steps, t)} :: LivesOn(st, steps, t) ==> Spared(st, steps, t)
  }

  /**
   The exact condition, to be asked of any standing writer at its Ok or later: its epoch stays current
   and its word in the record through every run that it lives through without dropping, if and only if
   there is no threat at that moment.
   */
  lemma {:induction false} SafeExactlyWhenUnthreatened(init: State, before: seq<Step>, t: nat)
    requires Init(init) && init.solo && Exec(init, before).Some? && Stands(Exec(init, before).value, t)
    ensures var st := Exec(init, before).value; Safe(st, t) <==> forall u: nat :: !Threat(st, t, u)
  {
    InitLeased(init);
    ExecLeased(init, before);
    var st := Exec(init, before).value;
    if u: nat :| Threat(st, t, u) {
      AThreatCanHarm(st, t, u);
    } else {
      forall steps {:trigger LivesOn(st, steps, t)} | LivesOn(st, steps, t) ensures Spared(st, steps, t) {
        if !Spared(st, steps, t) {
          var i := OnlyAThreatHarms(st, steps, t);
        }
      }
    }
  }

  /**
   And the harm comes from those threats and no others: in any run that outdates a standing writer or
   takes its word out, the first step that does so is by a thread that was a threat at the start. A reaper
   that had loaded nothing by then, or one of another tree that had not probed, does not do it.
   */
  lemma {:induction false} TheFirstHarmIsAThreats(init: State, before: seq<Step>, t: nat, steps: seq<Step>)
    returns (i: nat)
    requires Init(init) && init.solo && Exec(init, before).Some? && Stands(Exec(init, before).value, t)
    requires var st := Exec(init, before).value; LivesOn(st, steps, t) && !Spared(st, steps, t)
    ensures FirstHarm(Exec(init, before).value, steps, t, i)
  {
    InitLeased(init);
    ExecLeased(init, before);
    i := OnlyAThreatHarms(Exec(init, before).value, steps, t);
  }
}
