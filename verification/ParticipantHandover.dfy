/**
 Serving threads that follow one another. An heir knows nothing of the grants of those before it, so
 what its hangup callback frees is safe by the byte alone: by the time it starts to serve, whoever was
 granted a slot and still runs has to hold that slot's byte, which the second probe then sees.
 */
module ParticipantHandover {
  import opened Options
  import opened Participants
  import opened ParticipantSafety
  import opened ParticipantGrants

  /** Between the grant of a slot and taking its byte. */
  predicate Pending(peer: Participant) {
    (peer.phase.Starting? && peer.sock.Granted?) || peer.phase.Slotted?
  }

  /** No living process is between its grant and its byte. */
  ghost predicate Settled(st: State) {
    forall q {:trigger st.peers[q]} :: 0 <= q < |st.peers| && st.peers[q].alive ==> !Pending(st.peers[q])
  }

  /** Only the newest server acts, its second probes are answered, and a new one starts when all is settled. */
  ghost predicate Orderly(st: State, step: Step) {
    && (step.Serves? ==> step.k + 1 == |st.servers| && (step.serve.Offer? ==> step.serve.answered))
    && (step.Serve? ==> Settled(st))
  }

  ghost predicate OrderlyRun(st: State, steps: seq<Step>)
    requires Exec(st, steps).Some?
    decreases |steps|
  {
    steps != [] ==> Orderly(st, steps[0]) && OrderlyRun(Apply(st, steps[0]), steps[1..])
  }

  // ---------------------------------------------------------------------------------------------
  // What such a run keeps
  // ---------------------------------------------------------------------------------------------

  /** The newest server granted slot `s` to participant `p`, and has not handled its hangup. */
  predicate ByNewest(st: State, p: nat, s: nat) {
    p < |st.peers| && Outstanding(st.peers[p].sock, s) && st.peers[p].sock.server + 1 == |st.servers|
  }

  ghost predicate Known(st: State) {
    && (forall p {:trigger st.peers[p]} :: 0 <= p < |st.peers| && (st.peers[p].sock.Granted? || st.peers[p].sock.Shut?)
          ==> st.peers[p].sock.server < |st.servers|)
    && (forall p: nat, s: nat {:trigger ByNewest(st, p, s)} :: ByNewest(st, p, s)
          ==> s in st.servers[|st.servers| - 1].granted)
    && (forall p: nat, q: nat, s: nat {:trigger ByNewest(st, p, s), ByNewest(st, q, s)} ::
          ByNewest(st, p, s) && ByNewest(st, q, s) ==> p == q)
  }

  /** Where a living participant's socket stands. */
  predicate SocketFits(st: State, p: nat)
    requires p < |st.peers|
  {
    var peer := st.peers[p];
    peer.alive ==>
      && (Pending(peer) ==> peer.sock.Granted? && peer.sock.server + 1 == |st.servers|
                            && (peer.phase.Slotted? ==> peer.phase.slot == peer.sock.slot))
      && (peer.sock.Shut? || peer.sock.Closed? ==> peer.phase.Leaving? || peer.phase.Left?)
  }

  ghost predicate SocketsFit(st: State) {
    forall p: nat {:trigger SocketFits(st, p)} :: p < |st.peers| ==> SocketFits(st, p)
  }

  predicate Works(st: State, q: nat, s: nat) {
    q < |st.peers| && st.peers[q].alive && Bound(st.peers[q].phase, s)
  }

  /** In a slot the newest server granted, nobody but the grantee works. */
  ghost predicate Exclusive(st: State) {
    forall c: nat, q: nat, s: nat {:trigger ByNewest(st, c, s), Works(st, q, s)} ::
      ByNewest(st, c, s) && Works(st, q, s) ==> q == c
  }

  /** What the newest server is about to do agrees with its own grants. */
  ghost predicate NewestSound(st: State) {
    |st.servers| > 0 ==>
      var k := |st.servers| - 1;
      match st.servers[k].task
      case Judging(s, _) => s !in st.servers[k].granted
      case Judged(s, _) => s !in st.servers[k].granted
      case Offering(s) => s !in st.servers[k].granted
      case Hanging(c, s, w) => c < |st.peers| && st.peers[c].sock == Shut(k, s) && Seen(st, s, w) && Gone(st, s, w)
      case Resting => true
  }

  ghost predicate Succession(st: State) {
    Inv(st) && Known(st) && SocketsFit(st) && Exclusive(st) && NewestSound(st) && Intact(st)
  }

  lemma {:induction false} InitSuccession(st: State)
    requires Init(st) && !st.byteFirst
    ensures Succession(st)
  {
    InitInv(st);
    assert forall p: nat {:trigger SocketFits(st, p)} :: p < |st.peers| ==> SocketFits(st, p);
  }

  lemma {:induction false} ActSamePeers(st: State, p: nat, act: Act)
    requires ActEnabled(st, p, act)
    ensures |Acted(st, p, act).peers| == |st.peers|
  {
  }

  lemma {:induction false} ServeSamePeers(st: State, k: nat, serve: ServeAct)
    requires ServeEnabled(st, k, serve)
    ensures |ServeApplied(st, k, serve).peers| == |st.peers|
  {
  }

  lemma {:induction false} SamePeers(st: State, step: Step)
    requires Enabled(st, step)
    ensures |Apply(st, step).peers| == |st.peers|
  {
    if step.Peer? {
      ActSamePeers(st, step.p, step.act);
    } else if step.Serves? {
      ServeSamePeers(st, step.k, step.serve);
    }
  }

  // ---------------------------------------------------------------------------------------------
  // Grants
  // ---------------------------------------------------------------------------------------------

  /** One action of the newest server makes at most the grant it offers, of a slot it has not granted. */
  lemma {:induction false} ServeNewest(st: State, k: nat, serve: ServeAct, p: nat, s: nat)
    requires Succession(st) && ServeEnabled(st, k, serve) && k + 1 == |st.servers|
    requires ByNewest(ServeApplied(st, k, serve), p, s)
    ensures s in ServeApplied(st, k, serve).servers[k].granted
    ensures ByNewest(st, p, s) || (serve.Offer? && serve.client == p && st.servers[k].task == Offering(s))
  {
    var st' := ServeApplied(st, k, serve);
    if serve.HangupCas? {
      assert ByNewest(st, st.servers[k].task.client, st.servers[k].task.slot);
    } else if serve.HangupLoad? {
      assert ByNewest(st, serve.client, st.peers[serve.client].sock.slot);
    }
    if p < |st.peers| && st'.peers[p].sock == st.peers[p].sock {
      assert ByNewest(st, p, s);
    }
  }

  lemma {:induction false} ServeKnown(st: State, k: nat, serve: ServeAct)
    requires Succession(st) && ServeEnabled(st, k, serve) && k + 1 == |st.servers|
    ensures Known(ServeApplied(st, k, serve))
  {
    var st' := ServeApplied(st, k, serve);
    forall p: nat, s: nat {:trigger ByNewest(st', p, s)} | ByNewest(st', p, s)
      ensures s in st'.servers[|st'.servers| - 1].granted
    {
      ServeNewest(st, k, serve, p, s);
    }
    forall p: nat, q: nat, s: nat {:trigger ByNewest(st', p, s), ByNewest(st', q, s)}
      | ByNewest(st', p, s) && ByNewest(st', q, s)
      ensures p == q
    {
      ServeNewest(st, k, serve, p, s);
      ServeNewest(st, k, serve, q, s);
    }
  }

  /** Nobody else's step makes a grant of the newest server. */
  lemma {:induction false} QuietNewest(st: State, step: Step, p: nat, s: nat)
    requires Known(st) && Enabled(st, step) && !step.Serves? && ByNewest(Apply(st, step), p, s)
    ensures ByNewest(st, p, s) && !step.Serve?
  {
    QuietSockets(st, step, p, s);
  }

  lemma {:induction false} QuietKnown(st: State, step: Step)
    requires Succession(st) && Enabled(st, step) && !step.Serves?
    ensures Known(Apply(st, step))
  {
    var st' := Apply(st, step);
    forall p: nat, s: nat {:trigger ByNewest(st', p, s)} | ByNewest(st', p, s)
      ensures s in st'.servers[|st'.servers| - 1].granted
    {
      QuietNewest(st, step, p, s);
    }
    forall p: nat, q: nat, s: nat {:trigger ByNewest(st', p, s), ByNewest(st', q, s)}
      | ByNewest(st', p, s) && ByNewest(st', q, s)
      ensures p == q
    {
      QuietNewest(st, step, p, s);
      QuietNewest(st, step, q, s);
    }
    forall p {:trigger st'.peers[p]} | 0 <= p < |st'.peers| && (st'.peers[p].sock.Granted? || st'.peers[p].sock.Shut?)
      ensures st'.peers[p].sock.server < |st'.servers|
    {
      QuietSockets(st, step, p, st'.peers[p].sock.slot);
    }
  }

  // ---------------------------------------------------------------------------------------------
  // Sockets, and who works where
  // ---------------------------------------------------------------------------------------------

  lemma {:induction false} ActSocketFits(st: State, a: nat, act: Act, p: nat)
    requires Succession(st) && ActEnabled(st, a, act) && p < |st.peers|
    ensures p < |Acted(st, a, act).peers| && SocketFits(Acted(st, a, act), p)
  {
    assert SocketFits(st, p);
  }

  lemma {:induction false} ServeSocketFits(st: State, k: nat, serve: ServeAct, p: nat)
    requires Succession(st) && ServeEnabled(st, k, serve) && k + 1 == |st.servers| && p < |st.peers|
    ensures p < |ServeApplied(st, k, serve).peers| && SocketFits(ServeApplied(st, k, serve), p)
  {
    assert SocketFits(st, p);
  }

  lemma {:induction false} OtherSocketFits(st: State, step: Step, p: nat)
    requires Succession(st) && Enabled(st, step) && Orderly(st, step) && !step.Peer? && !step.Serves? && p < |st.peers|
    ensures p < |Apply(st, step).peers| && SocketFits(Apply(st, step), p)
  {
    assert SocketFits(st, p);
  }

  lemma {:induction false} StepSocketsFit(st: State, step: Step)
    requires Succession(st) && Enabled(st, step) && Orderly(st, step)
    ensures SocketsFit(Apply(st, step))
  {
    var st' := Apply(st, step);
    SamePeers(st, step);
    forall p: nat {:trigger SocketFits(st', p)} | p < |st'.peers| ensures SocketFits(st', p) {
      if step.Peer? {
        ActSocketFits(st, step.p, step.act, p);
      } else if step.Serves? {
        ServeSocketFits(st, step.k, step.serve, p);
      } else {
        OtherSocketFits(st, step, p);
      }
    }
  }

  lemma {:induction false} ActWorks(st: State, a: nat, act: Act, q: nat, s: nat)
    requires ActEnabled(st, a, act) && Works(Acted(st, a, act), q, s)
    ensures Works(st, q, s)
            || (a == q && act == ReadReply && st.peers[q].sock.slot == s)
  {
  }

  lemma {:induction false} OtherWorks(st: State, step: Step, q: nat, s: nat)
    requires Enabled(st, step) && !step.Peer? && Works(Apply(st, step), q, s)
    ensures Works(st, q, s)
  {
  }

  /** Whoever comes to work in a slot has read its own grant of it. */
  lemma {:induction false} StepWorks(st: State, step: Step, q: nat, s: nat)
    requires Succession(st) && Enabled(st, step) && Works(Apply(st, step), q, s)
    ensures Works(st, q, s) || (step == Peer(q, ReadReply) && ByNewest(st, q, s))
  {
    if step.Peer? {
      ActWorks(st, step.p, step.act, q, s);
      assert q < |st.peers| ==> SocketFits(st, q);
    } else {
      OtherWorks(st, step, q, s);
    }
  }

  /** Whoever works in a slot holds its byte, or has yet to take it on a grant of the newest server. */
  lemma {:induction false} WorksByByteOrGrant(st: State, q: nat, s: nat)
    requires Succession(st)
    ensures Works(st, q, s) ==> ByNewest(st, q, s) || (s < |st.bytes| && st.bytes[s] == Held(q))
  {
    assert q < |st.peers| ==> SocketFits(st, q);
    assert Works(st, q, s) && !st.peers[q].phase.Slotted? ==> Holds(st.peers[q].phase, s);
  }

  /** A slot whose byte is free, and which the newest server has not granted, has nobody working in it. */
  lemma {:induction false} FreeByteMeansIdle(st: State, q: nat, s: nat)
    requires Succession(st) && |st.servers| > 0 && s !in st.servers[|st.servers| - 1].granted
    requires s < |st.bytes| && st.bytes[s] == Vacant
    ensures !Works(st, q, s)
  {
    WorksByByteOrGrant(st, q, s);
  }

  lemma {:induction false} StepExclusive(st: State, step: Step)
    requires Succession(st) && Enabled(st, step) && Orderly(st, step)
    ensures Exclusive(Apply(st, step))
  {
    var st' := Apply(st, step);
    forall c: nat, q: nat, s: nat {:trigger ByNewest(st', c, s), Works(st', q, s)}
      | ByNewest(st', c, s) && Works(st', q, s)
      ensures q == c
    {
      StepWorks(st, step, q, s);
      if step.Serves? {
        ServeNewest(st, step.k, step.serve, c, s);
        if !ByNewest(st, c, s) {
          FreeByteMeansIdle(st, q, s);
        }
      } else {
        QuietNewest(st, step, c, s);
      }
    }
  }

  // ---------------------------------------------------------------------------------------------
  // What the newest server is about to do
  // ---------------------------------------------------------------------------------------------

  lemma {:induction false} RegistrantWorks(st: State, s: nat, i: nat)
    requires Inv(st) && s < |st.words| && st.words[s] == Live(i)
    ensures Drawn(st, s, i) && (st.peers[Registrant(st, s, i)].alive ==> Works(st, Registrant(st, s, i), s))
  {
  }

  /** A client whose socket is shut has nothing more to run in the slot, and nobody else has. */
  lemma {:induction false} ShutClientIsGone(st: State, c: nat, s: nat)
    requires Succession(st) && ByNewest(st, c, s) && st.peers[c].sock.Shut? && s < |st.words|
    ensures Seen(st, s, st.words[s]) && Gone(st, s, st.words[s])
  {
    assert SocketFits(st, c);
    if st.words[s].Live? {
      RegistrantWorks(st, s, st.words[s].inc);
    }
  }

  lemma {:induction false} ServeNewestSound(st: State, k: nat, serve: ServeAct)
    requires Succession(st) && ServeEnabled(st, k, serve) && k + 1 == |st.servers|
    ensures NewestSound(ServeApplied(st, k, serve))
  {
    if serve.HangupLoad? {
      var c := serve.client;
      assert ByNewest(st, c, st.peers[c].sock.slot);
      ShutClientIsGone(st, c, st.peers[c].sock.slot);
    }
  }

  lemma {:induction false} QuietNewestSound(st: State, step: Step)
    requires Succession(st) && Enabled(st, step) && !step.Serves?
    ensures NewestSound(Apply(st, step))
  {
    if |st.servers| > 0 && !step.Serve? {
      var task := st.servers[|st.servers| - 1].task;
      QuietServers(st, step);
      if task.Hanging? {
        StepKeeps(st, step, task.slot, task.word);
        ShutStays(st, step, task.client);
      }
    }
  }

  lemma {:induction false} QuietServers(st: State, step: Step)
    requires Enabled(st, step) && !step.Serves? && !step.Serve?
    ensures Apply(st, step).servers == st.servers
  {
  }

  lemma {:induction false} ActShutStays(st: State, a: nat, act: Act, c: nat)
    requires ActEnabled(st, a, act) && c < |st.peers| && st.peers[c].sock.Shut?
    ensures c < |Acted(st, a, act).peers| && Acted(st, a, act).peers[c].sock == st.peers[c].sock
  {
  }

  lemma {:induction false} ShutStays(st: State, step: Step, c: nat)
    requires Enabled(st, step) && !step.Serves? && c < |st.peers| && st.peers[c].sock.Shut?
    ensures c < |Apply(st, step).peers| && Apply(st, step).peers[c].sock == st.peers[c].sock
  {
    if step.Peer? {
      ActShutStays(st, step.p, step.act, c);
    }
  }

  // ---------------------------------------------------------------------------------------------
  // Records
  // ---------------------------------------------------------------------------------------------

  /** No CAS of a sweeper or of the newest server meets a record whose registrant runs. */
  lemma {:induction false} RecordStays(st: State, step: Step, s: nat, i: nat)
    requires Succession(st) && Enabled(st, step) && Orderly(st, step) && !step.Peer?
    requires s < |st.words| && st.words[s] == Live(i) && !Gone(st, s, Live(i))
    ensures s < |Apply(st, step).words| && Apply(st, step).words[s] == Live(i)
  {
  }

  lemma {:induction false} RunnerKeepsRecord(st: State, step: Step, q: nat, s: nat, i: nat)
    requires Succession(st) && Enabled(st, step) && Orderly(st, step) && !step.Peer?
    requires var st' := Apply(st, step); q < |st'.peers| && st'.peers[q].alive && st'.peers[q].phase == Running(s, i)
    ensures s < |Apply(st, step).words| && Apply(st, step).words[s] == Live(i)
  {
    SamePeers(st, step);
    assert st.peers[q].phase == Running(s, i) && Owns(st.peers[q].phase, s, i) && st.words[s] == Live(i);
    RunningIsNotGone(st, q, s, i);
    RecordStays(st, step, s, i);
  }

  lemma {:induction false} StepKeepsRecords(st: State, step: Step)
    requires Succession(st) && Enabled(st, step) && Orderly(st, step)
    ensures Intact(Apply(st, step))
  {
    if step.Peer? {
      ActIntact(st, step.p, step.act);
    } else {
      var st' := Apply(st, step);
      forall q: nat, s: nat, i: nat {:trigger Owns(st'.peers[q].phase, s, i)}
        | q < |st'.peers| && st'.peers[q].alive && Owns(st'.peers[q].phase, s, i) && st'.peers[q].phase.Running?
        ensures s < |st'.words| && st'.words[s] == Live(i)
      {
        RunnerKeepsRecord(st, step, q, s, i);
      }
    }
  }

  lemma {:induction false} StepSuccession(st: State, step: Step)
    requires Succession(st) && Enabled(st, step) && Orderly(st, step)
    ensures Succession(Apply(st, step))
  {
    StepInv(st, step);
    StepSocketsFit(st, step);
    StepExclusive(st, step);
    StepKeepsRecords(st, step);
    if step.Serves? {
      ServeKnown(st, step.k, step.serve);
      ServeNewestSound(st, step.k, step.serve);
    } else {
      QuietKnown(st, step);
      QuietNewestSound(st, step);
    }
  }

  lemma {:induction false} ExecSuccession(st: State, steps: seq<Step>)
    requires Succession(st) && Exec(st, steps).Some? && OrderlyRun(st, steps)
    ensures Succession(Exec(st, steps).value)
    decreases |steps|
  {
    if steps != [] {
      StepSuccession(st, steps[0]);
      ExecSuccession(Apply(st, steps[0]), steps[1..]);
    }
  }

  lemma {:induction false} NewestSpares(st: State, k: nat, s: nat, i: nat)
    requires Succession(st) && k + 1 == |st.servers|
    ensures !ErasesTheLiving(st, Serves(k, HangupCas), s, i)
  {
    if ErasesTheLiving(st, Serves(k, HangupCas), s, i) {
      RunningIsNotGone(st, Registrant(st, s, i), s, i);
      RecordStays(st, Serves(k, HangupCas), s, i);
      assert false;
    }
  }

  // ---------------------------------------------------------------------------------------------
  // Main results, for any number of servers that follow one another in order
  // ---------------------------------------------------------------------------------------------

  /** Whatever sweeps, assigns or hangs up: the record of a participant that runs is its own. */
  lemma {:induction false} SuccessorsKeepEveryRunningRecord(init: State, steps: seq<Step>, p: nat, s: nat, i: nat)
    requires Init(init) && !init.byteFirst && Exec(init, steps).Some? && OrderlyRun(init, steps)
    requires var st := Exec(init, steps).value;
             p < |st.peers| && st.peers[p].alive && st.peers[p].phase == Running(s, i)
    ensures var st := Exec(init, steps).value;
            Slot(st, s) && st.words[s] == Live(i) && st.bytes[s] == Held(p)
  {
    InitSuccession(init);
    ExecSuccession(init, steps);
    var st := Exec(init, steps).value;
    assert Owns(st.peers[p].phase, s, i) && Holds(st.peers[p].phase, s);
  }

  /** The hangup callback of the newest server erases no record of a process that runs. */
  lemma {:induction false} SuccessorsHangupSparesTheLiving(init: State, steps: seq<Step>, k: nat, s: nat, i: nat)
    requires Init(init) && !init.byteFirst && Exec(init, steps).Some? && OrderlyRun(init, steps)
    requires k + 1 == |Exec(init, steps).value.servers|
    ensures !ErasesTheLiving(Exec(init, steps).value, Serves(k, HangupCas), s, i)
  {
    InitSuccession(init);
    ExecSuccession(init, steps);
    NewestSpares(Exec(init, steps).value, k, s, i);
  }
}
