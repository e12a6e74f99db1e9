/**
 What every run of the participant protocol keeps, for any number of slots, participants,
 sweepers and serving threads.
 */
module ParticipantSafety {
  import opened Options
  import opened Participants

  /** The phases that own the slot's byte. */
  predicate Holds(ph: Phase, s: nat) {
    match ph
    case HasByte(t) => t == s
    case Reading(t) => t == s
    case Filling(t) => t == s
    case Numbered(t, _) => t == s
    case Running(t, _) => t == s
    case Leaving(t) => t == s
    case _ => false
  }

  /** The phases between a record's incarnation being drawn and its release. */
  predicate Owns(ph: Phase, s: nat, i: nat) {
    ph == Numbered(s, i) || ph == Running(s, i)
  }

  ghost predicate Shape(st: State) {
    && !st.byteFirst
    && |st.minted| == |st.words| && |st.bytes| == |st.words|
    && forall s :: 0 <= s < |st.minted| ==> forall n :: 0 <= n < |st.minted[s]| ==> st.minted[s][n] < |st.peers|
  }

  /** A process that still runs holds the byte of the slot it works in. */
  ghost predicate Bytes(st: State) {
    forall p: nat, s: nat {:trigger Holds(st.peers[p].phase, s)} ::
      p < |st.peers| && st.peers[p].alive && Holds(st.peers[p].phase, s)
      ==> Slot(st, s) && st.bytes[s] == Held(p)
  }

  ghost predicate Mints(st: State) {
    forall p: nat, s: nat, i: nat :: p < |st.peers| && Owns(st.peers[p].phase, s, i)
      ==> s < |st.minted| && 0 < i <= |st.minted[s]| && st.minted[s][i - 1] == p
  }

  /** Incarnation `i` of slot `s` has been drawn. */
  predicate Drawn(st: State, s: nat, i: nat) {
    s < |st.minted| && 0 < i <= |st.minted[s]| && st.minted[s][i - 1] < |st.peers|
  }

  function Registrant(st: State, s: nat, i: nat): nat
    requires Drawn(st, s, i)
  {
    st.minted[s][i - 1]
  }

  /** A live word is its registrant's, and stays only while the registrant has not released it. */
  ghost predicate Words(st: State) {
    forall s: nat, i: nat :: s < |st.words| && st.words[s] == Live(i)
      ==> Drawn(st, s, i) && st.peers[Registrant(st, s, i)].phase == Running(s, i)
  }

  /** No process that still runs owns incarnation `i` of slot `s`, nor ever will again. */
  predicate Gone(st: State, s: nat, w: Word) {
    w.Live? ==>
      && Drawn(st, s, w.inc)
      && !(st.peers[Registrant(st, s, w.inc)].alive && Owns(st.peers[Registrant(st, s, w.inc)].phase, s, w.inc))
  }

  predicate Seen(st: State, s: nat, w: Word) {
    s < |st.words| && (w.Live? ==> Drawn(st, s, w.inc))
  }

  ghost predicate SweepsSound(st: State) {
    forall j :: 0 <= j < |st.sweepers| ==>
      match st.sweepers[j].at
      case SawWord(s, w) => Seen(st, s, w)
      case SawFree(s, w) => Seen(st, s, w) && Gone(st, s, w)
      case Peeked(_) => false
      case Idle => true
  }

  /** What a serving thread has in hand is sound. */
  ghost predicate TaskSound(st: State, task: Task) {
    match task
    case Judging(s, w) => Seen(st, s, w)
    case Judged(s, w) => Seen(st, s, w) && Gone(st, s, w)
    case Hanging(_, s, w) => Seen(st, s, w)
    case _ => true
  }

  ghost predicate TasksSound(st: State) {
    forall k :: 0 <= k < |st.servers| ==> TaskSound(st, st.servers[k].task)
  }

  ghost predicate Inv(st: State) {
    Shape(st) && Bytes(st) && Mints(st) && Words(st) && SweepsSound(st) && TasksSound(st)
  }

  lemma {:induction false} InitInv(st: State)
    requires Init(st) && !st.byteFirst
    ensures Inv(st)
  {
  }

  lemma {:induction false} StepShape(st: State, step: Step)
    requires Inv(st) && Enabled(st, step)
    ensures Shape(Apply(st, step))
  {
    var st' := Apply(st, step);
    assert |st'.peers| == |st.peers| && |st'.words| == |st.words| && |st'.bytes| == |st.bytes|;
    if step.Peer? && step.act.Mint? {
      var s := st.peers[step.p].phase.slot;
      assert st'.minted == st.minted[s := st.minted[s] + [step.p]];
    } else {
      assert st'.minted == st.minted;
    }
  }

  lemma {:induction false} ActBytes(st: State, p: nat, act: Act)
    requires Inv(st) && ActEnabled(st, p, act)
    ensures Bytes(Acted(st, p, act))
  {
    var st' := Acted(st, p, act);
    StepShape(st, Peer(p, act));
    assert |st'.bytes| == |st.bytes|;
    forall q: nat, s: nat | q < |st'.peers| && st'.peers[q].alive && Holds(st'.peers[q].phase, s)
      ensures Slot(st', s) && st'.bytes[s] == Held(q)
    {
      if q == p {
        assert act.TakeByte? || Holds(st.peers[p].phase, s);
      } else {
        assert Holds(st.peers[q].phase, s);
        assert act.DropByte? ==> Holds(st.peers[p].phase, st.peers[p].phase.slot);
      }
    }
  }

  lemma {:induction false} StepBytes(st: State, step: Step)
    requires Inv(st) && Enabled(st, step)
    ensures Bytes(Apply(st, step))
  {
    if step.Peer? {
      ActBytes(st, step.p, step.act);
    } else {
      var st' := Apply(st, step);
      StepShape(st, step);
      assert |st'.bytes| == |st.bytes|;
      forall q: nat, s: nat | q < |st'.peers| && st'.peers[q].alive && Holds(st'.peers[q].phase, s)
        ensures Slot(st', s) && st'.bytes[s] == Held(q)
      {
        assert st.peers[q].alive && Holds(st.peers[q].phase, s);
      }
    }
  }

  lemma {:induction false} StepMints(st: State, step: Step)
    requires Inv(st) && Enabled(st, step)
    ensures Mints(Apply(st, step))
  {
    var st' := Apply(st, step);
    forall q: nat, s: nat, i: nat | q < |st'.peers| && Owns(st'.peers[q].phase, s, i)
      ensures s < |st'.minted| && 0 < i <= |st'.minted[s]| && st'.minted[s][i - 1] == q
    {
      assert (step.Peer? && step.p == q && step.act.Mint?) || Owns(st.peers[q].phase, s, i);
    }
  }

  lemma {:induction false} ActWords(st: State, p: nat, act: Act)
    requires Inv(st) && ActEnabled(st, p, act)
    ensures Words(Acted(st, p, act))
  {
    var st' := Acted(st, p, act);
    forall s: nat, i: nat | s < |st'.words| && st'.words[s] == Live(i)
      ensures Drawn(st', s, i) && st'.peers[Registrant(st', s, i)].phase == Running(s, i)
    {
      if act.Publish? && st.peers[p].phase == Numbered(s, i) {
        assert Owns(st.peers[p].phase, s, i);
      } else {
        assert st.words[s] == Live(i);
        assert Registrant(st, s, i) != p || !act.ReleaseRecord?;
      }
    }
  }

  lemma {:induction false} StepWords(st: State, step: Step)
    requires Inv(st) && Enabled(st, step)
    ensures Words(Apply(st, step))
  {
    if step.Peer? {
      ActWords(st, step.p, step.act);
    } else {
      var st' := Apply(st, step);
      forall s: nat, i: nat | s < |st'.words| && st'.words[s] == Live(i)
        ensures Drawn(st', s, i) && st'.peers[Registrant(st', s, i)].phase == Running(s, i)
      {
        assert st.words[s] == Live(i);
      }
    }
  }

  /** What has been seen stays seen, and who is gone stays gone. */
  lemma {:induction false} StepKeeps(st: State, step: Step, s: nat, w: Word)
    requires Inv(st) && Enabled(st, step) && Seen(st, s, w)
    ensures Seen(Apply(st, step), s, w)
    ensures Gone(st, s, w) ==> Gone(Apply(st, step), s, w)
  {
    var st' := Apply(st, step);
    if w.Live? {
      var b := Registrant(st, s, w.inc);
      assert Drawn(st', s, w.inc) && Registrant(st', s, w.inc) == b;
      assert st'.peers[b].alive ==> st.peers[b].alive;
    }
  }

  /** The key fact: a free byte seen after a live word proves its registrant is gone. */
  lemma {:induction false} FreeByteMeansGone(st: State, s: nat, w: Word)
    requires Inv(st) && Seen(st, s, w) && st.bytes[s] == Vacant
    ensures Gone(st, s, w)
  {
    if w.Live? {
      var b := Registrant(st, s, w.inc);
      assert st.peers[b].alive && Owns(st.peers[b].phase, s, w.inc) ==> Holds(st.peers[b].phase, s);
    }
  }

  lemma {:induction false} StepSweeps(st: State, step: Step)
    requires Inv(st) && Enabled(st, step)
    ensures SweepsSound(Apply(st, step))
  {
    var st' := Apply(st, step);
    forall j | 0 <= j < |st'.sweepers|
      ensures match st'.sweepers[j].at
              case SawWord(s, w) => Seen(st', s, w)
              case SawFree(s, w) => Seen(st', s, w) && Gone(st', s, w)
              case Peeked(_) => false
              case Idle => true
    {
      match st.sweepers[j].at
      case SawWord(s, w) =>
        StepKeeps(st, step, s, w);
        if st.bytes[s] == Vacant { FreeByteMeansGone(st, s, w); }
      case SawFree(s, w) => StepKeeps(st, step, s, w);
      case _ =>
    }
  }

  /** A task that was sound stays so, whoever moves. */
  lemma {:induction false} StepKeepsTask(st: State, step: Step, task: Task)
    requires Inv(st) && Enabled(st, step) && TaskSound(st, task)
    ensures TaskSound(Apply(st, step), task)
  {
    match task
    case Judging(s, w) => StepKeeps(st, step, s, w);
    case Judged(s, w) => StepKeeps(st, step, s, w);
    case Hanging(_, s, w) => StepKeeps(st, step, s, w);
    case _ =>
  }

  /** What a serving thread turns to is sound where it stands. */
  lemma {:induction false} ServeTaskSound(st: State, k: nat, serve: ServeAct)
    requires Inv(st) && ServeEnabled(st, k, serve)
    ensures TaskSound(st, ServeApplied(st, k, serve).servers[k].task)
  {
    if serve.ProbeSlot? {
      var task := st.servers[k].task;
      if st.bytes[task.slot] == Vacant {
        FreeByteMeansGone(st, task.slot, task.word);
      }
    }
  }

  lemma {:induction false} ServeLeavesOthers(st: State, j: nat, serve: ServeAct, k: nat)
    requires ServeEnabled(st, j, serve) && k < |ServeApplied(st, j, serve).servers| && j != k
    ensures k < |st.servers| && ServeApplied(st, j, serve).servers[k] == st.servers[k]
  {
  }

  /** The other serving threads, and all of them in a step of somebody else, keep what they have in hand. */
  lemma {:induction false} TaskStays(st: State, step: Step, k: nat)
    requires Enabled(st, step) && k < |Apply(st, step).servers| && !(step.Serves? && step.k == k)
    ensures k < |st.servers| ==> Apply(st, step).servers[k] == st.servers[k]
    ensures k >= |st.servers| ==> Apply(st, step).servers[k].task == Resting
  {
    if step.Serves? {
      ServeLeavesOthers(st, step.k, step.serve, k);
    }
  }

  lemma {:induction false} StepTasks(st: State, step: Step)
    requires Inv(st) && Enabled(st, step)
    ensures TasksSound(Apply(st, step))
  {
    var st' := Apply(st, step);
    forall k | 0 <= k < |st'.servers| ensures TaskSound(st', st'.servers[k].task) {
      if step.Serves? && step.k == k {
        ServeTaskSound(st, k, step.serve);
        StepKeepsTask(st, step, st'.servers[k].task);
      } else {
        TaskStays(st, step, k);
        if k < |st.servers| {
          StepKeepsTask(st, step, st.servers[k].task);
        }
      }
    }
  }

  lemma {:induction false} StepInv(st: State, step: Step)
    requires Inv(st) && Enabled(st, step)
    ensures Inv(Apply(st, step))
  {
    StepShape(st, step);
    StepBytes(st, step);
    StepMints(st, step);
    StepWords(st, step);
    StepSweeps(st, step);
    StepTasks(st, step);
  }

  lemma {:induction false} ExecInv(st: State, steps: seq<Step>)
    requires Inv(st) && Exec(st, steps).Some?
    ensures Inv(Exec(st, steps).value)
    decreases |steps|
  {
    if steps != [] {
      StepInv(st, steps[0]);
      ExecInv(Apply(st, steps[0]), steps[1..]);
    }
  }

  // ---------------------------------------------------------------------------------------------
  // Main results, for every run
  // ---------------------------------------------------------------------------------------------

  /** The step is the CAS of a reclaimer that loaded the word, then saw the byte free. */
  predicate ReclaimingCas(step: Step) {
    (step.Sweeps? && step.sweep.Cas?) || (step.Serves? && step.serve.CasSlot?)
  }

  /** The step turns the live record `Live(i)` of slot `s` into a free one. */
  predicate Erases(st: State, step: Step, s: nat, i: nat) {
    && Enabled(st, step)
    && s < |st.words| && st.words[s] == Live(i)
    && s < |Apply(st, step).words| && Apply(st, step).words[s] == Free
  }

  /** A step erases the live record of a process that runs. */
  predicate ErasesTheLiving(st: State, step: Step, s: nat, i: nat) {
    Erases(st, step, s, i) && Drawn(st, s, i) && st.peers[Registrant(st, s, i)].alive
    && st.peers[Registrant(st, s, i)].phase == Running(s, i)
  }

  /**
   Reclamation safety: in every run, whatever live record a sweeper or an owner's assigner frees
   belonged to a process that is dead.
   */
  lemma {:induction false} ReclaimSparesTheLiving(init: State, steps: seq<Step>, step: Step, s: nat, i: nat)
    requires Init(init) && !init.byteFirst && Exec(init, steps).Some?
    requires ReclaimingCas(step) && Erases(Exec(init, steps).value, step, s, i)
    ensures var st := Exec(init, steps).value;
            Drawn(st, s, i) && !st.peers[Registrant(st, s, i)].alive
  {
    InitInv(init);
    ExecInv(init, steps);
    var st := Exec(init, steps).value;
    assert st.peers[Registrant(st, s, i)].phase == Running(s, i);
  }

  /**
   Slot exclusivity: in every run, two processes that run and have got hold of the same slot's byte
   are one process. In particular no slot has two living registrants, even though a stale CAS may
   free a RESERVED word that is not the one its reclaimer saw.
   */
  lemma {:induction false} OneLivingParticipantPerSlot(init: State, steps: seq<Step>, p: nat, q: nat, s: nat)
    requires Init(init) && !init.byteFirst && Exec(init, steps).Some?
    requires var st := Exec(init, steps).value;
             && p < |st.peers| && st.peers[p].alive && Holds(st.peers[p].phase, s)
             && q < |st.peers| && st.peers[q].alive && Holds(st.peers[q].phase, s)
    ensures p == q
  {
    InitInv(init);
    ExecInv(init, steps);
  }

  /**
   The hangup callback CASes without probing the byte. In every run, with any number of serving
   threads, it erases the record of a process that runs exactly when the word is still the live one
   it loaded and that word's registrant runs and holds the slot's byte: the probe it leaves out is
   what would have refused.
   */
  lemma {:induction false} HangupErasesTheLivingExactlyWhen(init: State, steps: seq<Step>, k: nat, i: nat)
    requires Init(init) && !init.byteFirst && Exec(init, steps).Some?
    requires Enabled(Exec(init, steps).value, Serves(k, HangupCas))
    ensures var st := Exec(init, steps).value;
            var t := st.servers[k].task;
            ErasesTheLiving(st, Serves(k, HangupCas), t.slot, i)
            <==> t.word == st.words[t.slot] == Live(i) && Drawn(st, t.slot, i)
                 && st.bytes[t.slot] == Held(Registrant(st, t.slot, i)) && st.peers[Registrant(st, t.slot, i)].alive
  {
    InitInv(init);
    ExecInv(init, steps);
    var st := Exec(init, steps).value;
    var t := st.servers[k].task;
    if st.words[t.slot] == Live(i) {
      var b := Registrant(st, t.slot, i);
      assert Holds(st.peers[b].phase, t.slot);
    }
  }
}
