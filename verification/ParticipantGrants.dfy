/**
 The grants of one serving thread. The hangup callback CASes without probing the byte, so its
 safety rests on `granted`, which each serving thread keeps for itself.
 */
module ParticipantGrants {
  import opened Options
  import opened Participants
  import opened ParticipantSafety

  /** The server granted slot `s` to the client at the other end, and has not handled its hangup. */
  predicate Outstanding(sock: Socket, s: nat) {
    (sock.Granted? || sock.Shut?) && sock.slot == s
  }

  /** The phases of an attach attempt that may still come to run in slot `s`, or runs in it. */
  predicate Bound(ph: Phase, s: nat) {
    match ph
    case Slotted(t) => t == s
    case HasByte(t) => t == s
    case Reading(t) => t == s
    case Filling(t) => t == s
    case Numbered(t, _) => t == s
    case Running(t, _) => t == s
    case _ => false
  }

  ghost predicate GrantsRecorded(st: State) {
    forall p: nat, s: nat {:trigger Outstanding(st.peers[p].sock, s)} ::
      p < |st.peers| && Outstanding(st.peers[p].sock, s)
      ==> |st.servers| == 1 && st.peers[p].sock.server == 0 && s in st.servers[0].granted
  }

  ghost predicate GrantsDistinct(st: State) {
    forall p: nat, q: nat, s: nat {:trigger Outstanding(st.peers[p].sock, s), Outstanding(st.peers[q].sock, s)} ::
      p < |st.peers| && q < |st.peers| && Outstanding(st.peers[p].sock, s) && Outstanding(st.peers[q].sock, s)
      ==> p == q
  }

  /** Everybody but the creator works in the slot of a grant whose connection it keeps open. */
  ghost predicate BoundByGrant(st: State) {
    forall p: nat, s: nat {:trigger Bound(st.peers[p].phase, s)} ::
      p < |st.peers| && st.peers[p].alive && Bound(st.peers[p].phase, s)
      ==> (p == 0 && s == 0) || (st.peers[p].sock.Granted? && st.peers[p].sock.slot == s)
  }

  /** The record of a participant that runs is its own. */
  ghost predicate Intact(st: State) {
    forall p: nat, s: nat, i: nat {:trigger Owns(st.peers[p].phase, s, i)} ::
      p < |st.peers| && st.peers[p].alive && Owns(st.peers[p].phase, s, i) && st.peers[p].phase.Running?
      ==> s < |st.words| && st.words[s] == Live(i)
  }

  /** Nobody is granted the creator's slot while the creator runs. */
  ghost predicate CreatorApart(st: State) {
    && |st.peers| > 0
    && st.peers[0].sock == Unopened && !st.peers[0].phase.Starting? && !st.peers[0].phase.Slotted?
    && (|st.servers| == 1 ==>
      && st.servers[0].own == 0
      && (st.peers[0].alive ==> st.peers[0].phase.Running? || st.peers[0].phase.Leaving? || st.peers[0].phase.Left?)
      && (st.peers[0].alive && st.peers[0].phase.Running? ==>
        0 !in st.servers[0].granted && st.servers[0].task != Offering(0)
        && !(st.servers[0].task.Judging? && st.servers[0].task.slot == 0)
        && !(st.servers[0].task.Judged? && st.servers[0].task.slot == 0)))
  }

  /** What the serving thread is about to do agrees with its own grants. */
  ghost predicate GrantTaskSound(st: State) {
    |st.servers| == 1 ==>
      match st.servers[0].task
      case Judging(s, _) => s !in st.servers[0].granted
      case Judged(s, _) => s !in st.servers[0].granted
      case Offering(s) => s !in st.servers[0].granted && s < |st.words| && st.words[s] == Free
      case Hanging(c, s, w) =>
        c < |st.peers| && st.peers[c].sock == Shut(0, s) && Gone(st, s, w)
      case Resting => true
  }

  /** The live record in a granted slot is its grantee's. */
  ghost predicate OwnRecords(st: State) {
    forall p: nat, s: nat {:trigger Outstanding(st.peers[p].sock, s)} ::
      p < |st.peers| && Outstanding(st.peers[p].sock, s) && s < |st.words| && st.words[s].Live?
      ==> Drawn(st, s, st.words[s].inc) && Registrant(st, s, st.words[s].inc) == p
  }

  ghost predicate Sole(st: State) {
    && Inv(st) && |st.servers| <= 1
    && GrantsRecorded(st) && GrantsDistinct(st) && BoundByGrant(st) && Intact(st)
    && CreatorApart(st) && GrantTaskSound(st)
    && OwnRecords(st)
  }

  lemma {:induction false} InitSole(st: State)
    requires Init(st) && !st.byteFirst
    ensures Sole(st)
  {
    InitInv(st);
  }

  /** The grant in a socket stays what it is. */
  predicate SameGrant(was: Participant, now: Participant, s: nat) {
    && (Outstanding(now.sock, s) <==> Outstanding(was.sock, s))
    && (Outstanding(was.sock, s) ==> now.sock.server == was.sock.server)
  }

  lemma {:induction false} ActSockets(st: State, a: nat, act: Act, p: nat, s: nat)
    requires ActEnabled(st, a, act) && p < |st.peers|
    ensures p < |Acted(st, a, act).peers| && SameGrant(st.peers[p], Acted(st, a, act).peers[p], s)
  {
  }

  /** Only the serving thread changes which grants are outstanding. */
  lemma {:induction false} QuietSockets(st: State, step: Step, p: nat, s: nat)
    requires Enabled(st, step) && !step.Serves? && p < |st.peers|
    ensures p < |Apply(st, step).peers|
    ensures Outstanding(Apply(st, step).peers[p].sock, s) <==> Outstanding(st.peers[p].sock, s)
    ensures Outstanding(st.peers[p].sock, s) ==> Apply(st, step).peers[p].sock.server == st.peers[p].sock.server
  {
    if step.Peer? {
      ActSockets(st, step.p, step.act, p, s);
    }
  }

  /** What one action of the serving thread does to the outstanding grants. */
  lemma {:induction false} ServeSockets(st: State, serve: ServeAct, p: nat, s: nat)
    requires Sole(st) && ServeEnabled(st, 0, serve) && p < |st.peers|
    ensures var st' := ServeApplied(st, 0, serve);
            && |st'.peers| == |st.peers| && |st'.servers| == 1 && st'.servers[0].own == st.servers[0].own
            && (Outstanding(st'.peers[p].sock, s) ==>
                  st'.peers[p].sock.server == 0 && s in st'.servers[0].granted
                  && (Outstanding(st.peers[p].sock, s)
                      || (serve.Offer? && serve.client == p && s !in st.servers[0].granted)))
  {
    var st' := ServeApplied(st, 0, serve);
    if Outstanding(st'.peers[p].sock, s) && Outstanding(st.peers[p].sock, s) {
      if serve.HangupCas? {
        assert Outstanding(st.peers[st.servers[0].task.client].sock, st.servers[0].task.slot);
      } else if serve.HangupLoad? {
        assert Outstanding(st.peers[serve.client].sock, st.peers[serve.client].sock.slot);
      }
    }
  }

  lemma {:induction false} StepGrants(st: State, step: Step)
    requires Sole(st) && Enabled(st, step) && |Apply(st, step).servers| <= 1
    ensures GrantsRecorded(Apply(st, step)) && GrantsDistinct(Apply(st, step))
  {
    var st' := Apply(st, step);
    forall p: nat, s: nat {:trigger Outstanding(st'.peers[p].sock, s)}
      | p < |st'.peers| && Outstanding(st'.peers[p].sock, s)
      ensures |st'.servers| == 1 && st'.peers[p].sock.server == 0 && s in st'.servers[0].granted
    {
      if step.Serves? { ServeSockets(st, step.serve, p, s); } else { QuietSockets(st, step, p, s); }
    }
    forall p: nat, q: nat, s: nat {:trigger Outstanding(st'.peers[p].sock, s), Outstanding(st'.peers[q].sock, s)}
      | p < |st'.peers| && q < |st'.peers| && Outstanding(st'.peers[p].sock, s) && Outstanding(st'.peers[q].sock, s)
      ensures p == q
    {
      if step.Serves? {
        ServeSockets(st, step.serve, p, s);
        ServeSockets(st, step.serve, q, s);
      } else {
        QuietSockets(st, step, p, s);
        QuietSockets(st, step, q, s);
      }
    }
  }

  /** A participant comes to a slot by reading its own grant, and keeps the socket while it is there. */
  lemma {:induction false} ActBound(st: State, a: nat, act: Act, p: nat, s: nat)
    requires ActEnabled(st, a, act) && p < |st.peers| && Bound(Acted(st, a, act).peers[p].phase, s)
    ensures Bound(st.peers[p].phase, s) || (a == p && act == ReadReply && st.peers[p].sock.Granted?
                                            && st.peers[p].sock.slot == s)
    ensures st.peers[p].sock.Granted? && st.peers[p].sock.slot == s
            ==> Acted(st, a, act).peers[p].sock == st.peers[p].sock
    ensures Acted(st, a, act).peers[p].alive == st.peers[p].alive
  {
  }

  lemma {:induction false} ServeBound(st: State, serve: ServeAct, p: nat, s: nat)
    requires Sole(st) && ServeEnabled(st, 0, serve) && p < |st.peers| && Bound(st.peers[p].phase, s)
    ensures var st' := ServeApplied(st, 0, serve);
            && p < |st'.peers| && st'.peers[p].phase == st.peers[p].phase && st'.peers[p].alive == st.peers[p].alive
            && (st.peers[p].sock.Granted? ==> st'.peers[p].sock == st.peers[p].sock)
  {
  }

  lemma {:induction false} ServePhases(st: State, serve: ServeAct, p: nat)
    requires Sole(st) && ServeEnabled(st, 0, serve) && p < |ServeApplied(st, 0, serve).peers|
    ensures p < |st.peers| && ServeApplied(st, 0, serve).peers[p].phase == st.peers[p].phase
  {
  }

  lemma {:induction false} QuietBound(st: State, step: Step, p: nat)
    requires Enabled(st, step) && !step.Peer? && !step.Serves? && p < |Apply(st, step).peers|
    ensures var peer := Apply(st, step).peers[p];
            && p < |st.peers| && peer.phase == st.peers[p].phase && (peer.alive ==> st.peers[p].alive)
            && (peer.alive && st.peers[p].sock.Granted? ==> peer.sock == st.peers[p].sock)
  {
  }

  lemma {:induction false} StepBound(st: State, step: Step)
    requires Sole(st) && Enabled(st, step) && |Apply(st, step).servers| <= 1
    ensures BoundByGrant(Apply(st, step))
  {
    var st' := Apply(st, step);
    forall p: nat, s: nat {:trigger Bound(st'.peers[p].phase, s)}
      | p < |st'.peers| && st'.peers[p].alive && Bound(st'.peers[p].phase, s)
      ensures (p == 0 && s == 0) || (st'.peers[p].sock.Granted? && st'.peers[p].sock.slot == s)
    {
      if step.Peer? {
        assert p < |st.peers|;
        ActBound(st, step.p, step.act, p, s);
      } else if step.Serves? {
        ServePhases(st, step.serve, p);
        ServeBound(st, step.serve, p, s);
      } else {
        QuietBound(st, step, p);
      }
    }
  }

  /** A running participant's record matches no word that a reclaimer is about to CAS away. */
  lemma {:induction false} RunningIsNotGone(st: State, p: nat, s: nat, i: nat)
    requires Inv(st) && p < |st.peers| && st.peers[p].alive && st.peers[p].phase == Running(s, i)
    ensures Drawn(st, s, i) && Registrant(st, s, i) == p && !Gone(st, s, Live(i))
  {
    assert Owns(st.peers[p].phase, s, i);
  }

  lemma {:induction false} ActIntact(st: State, p: nat, act: Act)
    requires Inv(st) && Intact(st) && ActEnabled(st, p, act)
    ensures Intact(Acted(st, p, act))
  {
    var st' := Acted(st, p, act);
    forall q: nat, s: nat, i: nat | q < |st'.peers| && st'.peers[q].alive
                                    && Owns(st'.peers[q].phase, s, i) && st'.peers[q].phase.Running?
      ensures s < |st'.words| && st'.words[s] == Live(i)
    {
      if q == p && act.Publish? {
        assert Owns(st.peers[p].phase, s, i);
      } else {
        assert Owns(st.peers[q].phase, s, i);
        if act.Reserve? || act.Publish? || act.ReleaseRecord? {
          // Only the holder of the byte writes the word this way.
          assert Holds(st.peers[q].phase, s);
          assert Holds(st.peers[p].phase, st.peers[p].phase.slot);
        }
      }
    }
  }

  /** What the kernel, a sweeper or the serving thread does spares a record whose registrant runs. */
  lemma {:induction false} NotGoneIsKept(st: State, step: Step, s: nat, i: nat)
    requires Sole(st) && Enabled(st, step) && !step.Peer? && |Apply(st, step).servers| <= 1
    requires s < |st.words| && st.words[s] == Live(i) && !Gone(st, s, Live(i))
    ensures s < |Apply(st, step).words| && Apply(st, step).words[s] == Live(i)
  {
  }

  lemma {:induction false} StepIntact(st: State, step: Step)
    requires Sole(st) && Enabled(st, step) && |Apply(st, step).servers| <= 1
    ensures Intact(Apply(st, step))
  {
    if step.Peer? {
      ActIntact(st, step.p, step.act);
    } else {
      var st' := Apply(st, step);
      forall q: nat, s: nat, i: nat | q < |st'.peers| && st'.peers[q].alive
                                      && Owns(st'.peers[q].phase, s, i) && st'.peers[q].phase.Running?
        ensures s < |st'.words| && st'.words[s] == Live(i)
      {
        assert Owns(st.peers[q].phase, s, i) && st.words[s] == Live(i);
        RunningIsNotGone(st, q, s, i);
        NotGoneIsKept(st, step, s, i);
      }
    }
  }

  /** What is known of the creator while it runs and serves. */
  lemma {:induction false} CreatorRuns(st: State)
    requires Sole(st) && st.peers[0].alive && st.peers[0].phase.Running?
    ensures st.peers[0].phase.slot == 0 && |st.words| > 0 && st.words[0] == Live(st.peers[0].phase.inc)
  {
    assert Bound(st.peers[0].phase, st.peers[0].phase.slot);
    assert Owns(st.peers[0].phase, 0, st.peers[0].phase.inc);
  }

  lemma {:induction false} ServeCreator(st: State, serve: ServeAct)
    requires Sole(st) && ServeEnabled(st, 0, serve)
    ensures CreatorApart(ServeApplied(st, 0, serve))
  {
    if st.peers[0].alive && st.peers[0].phase.Running? {
      CreatorRuns(st);
    }
    ServeSockets(st, serve, 0, 0);
  }

  lemma {:induction false} StepCreator(st: State, step: Step)
    requires Sole(st) && Enabled(st, step) && |Apply(st, step).servers| <= 1
    ensures CreatorApart(Apply(st, step))
  {
    if step.Serves? {
      ServeCreator(st, step.serve);
    } else if step.Serve? {
      assert Bound(st.peers[step.p].phase, st.peers[step.p].phase.slot);
      assert st.peers[step.p].sock.Granted? ==> Outstanding(st.peers[step.p].sock, st.peers[step.p].sock.slot);
    } else {
      assert Apply(st, step).servers == st.servers;
    }
  }

  /** A client whose socket is shut, and whose slot's word is another's, is not granted that slot. */
  lemma {:induction false} ShutMeansGone(st: State, c: nat, s: nat)
    requires Sole(st) && |st.servers| == 1 && c < |st.peers| && st.peers[c].sock == Shut(0, s) && s < |st.words|
    ensures Seen(st, s, st.words[s]) && Gone(st, s, st.words[s])
  {
    if st.words[s].Live? {
      var b := Registrant(st, s, st.words[s].inc);
      assert Outstanding(st.peers[c].sock, s);
      var peer := st.peers[b];
      assert Outstanding(peer.sock, s) && peer.alive ==> !Bound(peer.phase, s);
    }
  }

  /** While a server exists, only its grantees write anything but FREE into a record. */
  lemma {:induction false} ActWritesOwnSlot(st: State, p: nat, act: Act, s: nat)
    requires Sole(st) && ActEnabled(st, p, act) && |st.servers| == 1 && s < |st.words|
    ensures s < |Acted(st, p, act).words|
    ensures Acted(st, p, act).words[s] == st.words[s] || Acted(st, p, act).words[s] == Free
            || (Outstanding(st.peers[p].sock, s)
                && (Acted(st, p, act).words[s].Live? ==> Owns(st.peers[p].phase, s, Acted(st, p, act).words[s].inc)))
  {
    if act.Reserve? || act.Publish? {
      assert Bound(st.peers[p].phase, st.peers[p].phase.slot);
    }
  }

  lemma {:induction false} ServeTask(st: State, serve: ServeAct)
    requires Sole(st) && ServeEnabled(st, 0, serve) && |st.servers| == 1
    ensures GrantTaskSound(ServeApplied(st, 0, serve))
  {
    if serve.HangupLoad? {
      ShutMeansGone(st, serve.client, st.peers[serve.client].sock.slot);
    }
  }

  lemma {:induction false} ActTask(st: State, p: nat, act: Act)
    requires Sole(st) && ActEnabled(st, p, act)
    ensures GrantTaskSound(Acted(st, p, act))
  {
    if |st.servers| == 1 && st.servers[0].task.Hanging? {
      StepKeeps(st, Peer(p, act), st.servers[0].task.slot, st.servers[0].task.word);
    }
    if |st.servers| == 1 && st.servers[0].task.Offering? {
      ActWritesOwnSlot(st, p, act, st.servers[0].task.slot);
    }
  }

  lemma {:induction false} StepTask(st: State, step: Step)
    requires Sole(st) && Enabled(st, step) && |Apply(st, step).servers| <= 1
    ensures GrantTaskSound(Apply(st, step))
  {
    if step.Serves? {
      ServeTask(st, step.serve);
    } else if step.Peer? {
      ActTask(st, step.p, step.act);
    } else {
      if |st.servers| == 1 && st.servers[0].task.Hanging? {
        StepKeeps(st, step, st.servers[0].task.slot, st.servers[0].task.word);
      }
      assert step.Serve? || Apply(st, step).servers == st.servers;
    }
  }

  lemma {:induction false} QuietOwnRecord(st: State, step: Step, p: nat, s: nat)
    requires Sole(st) && Enabled(st, step) && |Apply(st, step).servers| <= 1 && !step.Serves?
    requires var st' := Apply(st, step);
             p < |st'.peers| && Outstanding(st'.peers[p].sock, s) && s < |st'.words| && st'.words[s].Live?
    ensures var st' := Apply(st, step);
            Drawn(st', s, st'.words[s].inc) && Registrant(st', s, st'.words[s].inc) == p
  {
    QuietSockets(st, step, p, s);
    if step.Peer? {
      ActWritesOwnSlot(st, step.p, step.act, s);
      StepInv(st, step);
    }
  }

  lemma {:induction false} StepOwnRecords(st: State, step: Step)
    requires Sole(st) && Enabled(st, step) && |Apply(st, step).servers| <= 1
    ensures OwnRecords(Apply(st, step))
  {
    var st' := Apply(st, step);
    forall p: nat, s: nat {:trigger Outstanding(st'.peers[p].sock, s)}
      | p < |st'.peers| && Outstanding(st'.peers[p].sock, s) && s < |st'.words| && st'.words[s].Live?
      ensures Drawn(st', s, st'.words[s].inc) && Registrant(st', s, st'.words[s].inc) == p
    {
      if step.Serves? {
        ServeSockets(st, step.serve, p, s);
        assert st'.words[s] == st.words[s] && st'.minted == st.minted;
      } else {
        QuietOwnRecord(st, step, p, s);
      }
    }
  }

  lemma {:induction false} StepSole(st: State, step: Step)
    requires Sole(st) && Enabled(st, step) && |Apply(st, step).servers| <= 1
    ensures Sole(Apply(st, step))
  {
    StepInv(st, step);
    StepGrants(st, step);
    StepBound(st, step);
    StepIntact(st, step);
    StepCreator(st, step);
    StepTask(st, step);
    StepOwnRecords(st, step);
  }

  lemma {:induction false} ExecGrows(st: State, steps: seq<Step>)
    requires Exec(st, steps).Some?
    ensures |Exec(st, steps).value.servers| >= |st.servers|
    decreases |steps|
  {
    if steps != [] {
      ExecGrows(Apply(st, steps[0]), steps[1..]);
    }
  }

  lemma {:induction false} ExecSole(st: State, steps: seq<Step>)
    requires Sole(st) && Exec(st, steps).Some? && |Exec(st, steps).value.servers| <= 1
    ensures Sole(Exec(st, steps).value)
    decreases |steps|
  {
    if steps != [] {
      ExecGrows(Apply(st, steps[0]), steps[1..]);
      StepSole(st, steps[0]);
      ExecSole(Apply(st, steps[0]), steps[1..]);
    }
  }

  // ---------------------------------------------------------------------------------------------
  // No grant leaks
  // ---------------------------------------------------------------------------------------------

  predicate Grantee(st: State, p: nat, s: nat) {
    p < |st.peers| && Outstanding(st.peers[p].sock, s)
  }

  /** Every slot the serving thread takes for granted is at the other end of some connection. */
  ghost predicate GrantsHeld(st: State) {
    |st.servers| == 1 ==>
      forall s: nat {:trigger s in st.servers[0].granted} :: s in st.servers[0].granted
        ==> exists p: nat {:trigger Grantee(st, p, s)} :: Grantee(st, p, s)
  }

  /** A grant stays with its grantee, until the hangup that takes it back is done. */
  lemma {:induction false} ServeKeepsGrantee(st: State, serve: ServeAct, p: nat, s: nat)
    requires Sole(st) && ServeEnabled(st, 0, serve) && Grantee(st, p, s)
    requires s in ServeApplied(st, 0, serve).servers[0].granted
    ensures Grantee(ServeApplied(st, 0, serve), p, s)
  {
  }

  lemma {:induction false} ServeGrants(st: State, serve: ServeAct, s: nat)
    requires Sole(st) && ServeEnabled(st, 0, serve) && s in ServeApplied(st, 0, serve).servers[0].granted
    ensures s in st.servers[0].granted || (serve.Offer? && Grantee(ServeApplied(st, 0, serve), serve.client, s))
  {
  }

  lemma {:induction false} StepGrantsHeld(st: State, step: Step)
    requires Sole(st) && GrantsHeld(st) && Enabled(st, step) && |Apply(st, step).servers| <= 1
    ensures GrantsHeld(Apply(st, step))
  {
    var st' := Apply(st, step);
    if |st'.servers| == 1 && !step.Serve? {
      forall s: nat {:trigger s in st'.servers[0].granted} | s in st'.servers[0].granted
        ensures exists p: nat {:trigger Grantee(st', p, s)} :: Grantee(st', p, s)
      {
        if step.Serves? {
          ServeGrants(st, step.serve, s);
        }
        if s in st.servers[0].granted {
          var p: nat :| Grantee(st, p, s);
          if step.Serves? { ServeKeepsGrantee(st, step.serve, p, s); } else { QuietSockets(st, step, p, s); }
          assert Grantee(st', p, s);
        }
      }
    }
  }

  lemma {:induction false} ExecGrantsHeld(st: State, steps: seq<Step>)
    requires Sole(st) && GrantsHeld(st) && Exec(st, steps).Some? && |Exec(st, steps).value.servers| <= 1
    ensures Sole(Exec(st, steps).value) && GrantsHeld(Exec(st, steps).value)
    decreases |steps|
  {
    if steps != [] {
      ExecGrows(Apply(st, steps[0]), steps[1..]);
      StepSole(st, steps[0]);
      StepGrantsHeld(st, steps[0]);
      ExecGrantsHeld(Apply(st, steps[0]), steps[1..]);
    }
  }

  // ---------------------------------------------------------------------------------------------
  // Main results, for every run with one serving thread
  // ---------------------------------------------------------------------------------------------

  /** No reclaimer and no hangup ever takes away the record of a participant that runs. */
  lemma {:induction false} OneServerKeepsEveryRunningRecord(init: State, steps: seq<Step>, p: nat, s: nat, i: nat)
    requires Init(init) && !init.byteFirst && Exec(init, steps).Some? && |Exec(init, steps).value.servers| <= 1
    requires var st := Exec(init, steps).value;
             p < |st.peers| && st.peers[p].alive && st.peers[p].phase == Running(s, i)
    ensures var st := Exec(init, steps).value;
            Slot(st, s) && st.words[s] == Live(i) && st.bytes[s] == Held(p)
  {
    InitSole(init);
    ExecSole(init, steps);
    var st := Exec(init, steps).value;
    assert Owns(st.peers[p].phase, s, i) && Holds(st.peers[p].phase, s);
  }

  /** Two grants that are outstanding at once are of different slots. */
  lemma {:induction false} OneServerGrantsEachSlotOnce(init: State, steps: seq<Step>, p: nat, q: nat, s: nat)
    requires Init(init) && !init.byteFirst && Exec(init, steps).Some? && |Exec(init, steps).value.servers| <= 1
    requires var st := Exec(init, steps).value;
             && p < |st.peers| && Outstanding(st.peers[p].sock, s)
             && q < |st.peers| && Outstanding(st.peers[q].sock, s)
    ensures p == q
    ensures var st := Exec(init, steps).value; |st.servers| == 1 && s in st.servers[0].granted
  {
    InitSole(init);
    ExecSole(init, steps);
  }

  /** The hangup callback frees only the record of the client whose socket closed, and that client is dead. */
  lemma {:induction false} OneServerHangupFreesTheClientsRecord(init: State, steps: seq<Step>, s: nat, i: nat)
    requires Init(init) && !init.byteFirst && Exec(init, steps).Some? && |Exec(init, steps).value.servers| <= 1
    requires Erases(Exec(init, steps).value, Serves(0, HangupCas), s, i)
    ensures var st := Exec(init, steps).value;
            && Drawn(st, s, i) && Registrant(st, s, i) == st.servers[0].task.client
            && !st.peers[Registrant(st, s, i)].alive
  {
    InitSole(init);
    ExecSole(init, steps);
    var st := Exec(init, steps).value;
    var t := st.servers[0].task;
    assert Outstanding(st.peers[t.client].sock, t.slot);
    assert st.peers[Registrant(st, s, i)].phase == Running(s, i);
  }

  /** The serving thread's `granted` slots are, at every moment, exactly those of the connections it has not closed. */
  lemma {:induction false} NoGrantLeaks(init: State, steps: seq<Step>, s: nat)
    requires Init(init) && !init.byteFirst && Exec(init, steps).Some? && |Exec(init, steps).value.servers| == 1
    ensures var st := Exec(init, steps).value;
            s in st.servers[0].granted <==> exists p: nat {:trigger Grantee(st, p, s)} :: Grantee(st, p, s)
  {
    InitSole(init);
    ExecGrantsHeld(init, steps);
  }
}
