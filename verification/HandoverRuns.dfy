/**
 The hand-over of the owner role, both ways: an heir that starts to serve while no living process is
 between its grant and its byte never erases a running process's record, and one that starts while a
 process is can come to do so.
 */
module HandoverRuns {
  import opened Options
  import opened Participants
  import opened ParticipantSafety
  import opened ParticipantGrants
  import opened ParticipantHandover

  ghost predicate OrderlyTo(init: State, run: seq<Step>, st: State) {
    Exec(init, run) == Some(st) && OrderlyRun(init, run)
  }

  lemma {:induction false} OrderlyAppend(init: State, run: seq<Step>, st: State, step: Step)
    requires OrderlyTo(init, run, st) && Enabled(st, step) && Orderly(st, step)
    ensures OrderlyTo(init, run + [step], Apply(st, step))
    decreases |run|
  {
    if run == [] {
      assert run + [step] == [step] && [step][1..] == [];
      assert Exec(Apply(st, step), []) == Some(Apply(st, step));
    } else {
      assert (run + [step])[0] == run[0] && (run + [step])[1..] == run[1..] + [step];
      OrderlyAppend(Apply(init, run[0]), run[1..], st, step);
    }
  }

  /** Lengthens an orderly run by one step. */
  lemma {:induction false} Next(init: State, run: seq<Step>, st: State, step: Step)
    returns (run': seq<Step>, st': State)
    requires OrderlyTo(init, run, st) && Enabled(st, step) && Orderly(st, step)
    ensures st' == Apply(st, step) && OrderlyTo(init, run', st')
  {
    OrderlyAppend(init, run, st, step);
    run', st' := run + [step], Apply(st, step);
  }

  // ---------------------------------------------------------------------------------------------
  // The run that goes wrong
  // ---------------------------------------------------------------------------------------------

  /** The slot, who was granted it before the hand-over, the rival the heir grants it to, and the heir. */
  datatype Cast = Cast(slot: nat, late: nat, rival: nat, heir: nat)

  datatype Scene = Scene(late: Participant, rival: Participant, heir: Server, word: Word, drawn: seq<nat>, byte: Holder)

  predicate Shown(st: State, c: Cast, scene: Scene) {
    && c.late < |st.peers| && c.rival < |st.peers| && c.late != c.rival
    && c.heir + 1 == |st.servers| && Slot(st, c.slot)
    && scene == Scene(st.peers[c.late], st.peers[c.rival], st.servers[c.heir],
                      st.words[c.slot], st.minted[c.slot], st.bytes[c.slot])
  }

  /** The heir comes to offer the slot to the rival, and frees its record first if it has one. */
  lemma {:induction false} HeirOffers(init: State, run0: seq<Step>, st0: State, c: Cast, before: Scene)
    returns (run: seq<Step>, st: State)
    requires OrderlyTo(init, run0, st0) && Shown(st0, c, before) && before.byte == Vacant
    requires before.rival == Participant(true, Starting, Unopened)
    requires before.heir.task == Resting && c.slot !in before.heir.granted && before.heir.own != c.slot
    ensures OrderlyTo(init, run, st)
    ensures Shown(st, c, before.(rival := Participant(true, Starting, Waiting(c.heir)), word := Free,
                                 heir := before.heir.(task := Offering(c.slot))))
  {
    run, st := Next(init, run0, st0, Peer(c.rival, Connect(c.heir)));
    run, st := Next(init, run, st, Serves(c.heir, LoadSlot(c.slot)));
    if before.word != Free {
      run, st := Next(init, run, st, Serves(c.heir, ProbeSlot(true)));
      run, st := Next(init, run, st, Serves(c.heir, CasSlot));
    }
  }

  lemma {:induction false} HeirGrants(init: State, run0: seq<Step>, st0: State, c: Cast, before: Scene)
    returns (run: seq<Step>, st: State)
    requires OrderlyTo(init, run0, st0) && Shown(st0, c, before) && before.byte == Vacant
    requires before.rival == Participant(true, Starting, Waiting(c.heir)) && before.heir.task == Offering(c.slot)
    ensures OrderlyTo(init, run, st)
    ensures Shown(st, c, before.(rival := Participant(true, Slotted(c.slot), Granted(c.heir, c.slot)),
                                 heir := Server(before.heir.own, before.heir.granted + {c.slot}, Resting)))
  {
    run, st := Next(init, run0, st0, Serves(c.heir, Offer(c.rival, true)));
    run, st := Next(init, run, st, Peer(c.rival, ReadReply));
  }

  lemma {:induction false} LateReserves(init: State, run0: seq<Step>, st0: State, c: Cast, before: Scene)
    returns (run: seq<Step>, st: State)
    requires OrderlyTo(init, run0, st0) && Shown(st0, c, before) && before.byte == Vacant && before.word == Free
    requires before.late.alive && before.late.phase == Slotted(c.slot)
    ensures OrderlyTo(init, run, st)
    ensures Shown(st, c, before.(late := before.late.(phase := Filling(c.slot)),
                                 word := Reserved, byte := Held(c.late)))
  {
    run, st := Next(init, run0, st0, Peer(c.late, TakeByte));
    run, st := Next(init, run, st, Peer(c.late, Reserve));
  }

  lemma {:induction false} LatePublishes(init: State, run0: seq<Step>, st0: State, c: Cast, before: Scene)
    returns (run: seq<Step>, st: State)
    requires OrderlyTo(init, run0, st0) && Shown(st0, c, before)
    requires before.late.alive && before.late.phase == Filling(c.slot)
    ensures OrderlyTo(init, run, st)
    ensures var i := |before.drawn| + 1;
            Shown(st, c, before.(late := before.late.(phase := Running(c.slot, i)), word := Live(i),
                                 drawn := before.drawn + [c.late]))
  {
    run, st := Next(init, run0, st0, Peer(c.late, Mint));
    run, st := Next(init, run, st, Peer(c.late, Publish));
  }

  /** The rival finds the byte taken and goes; the heir sees its socket close and loads the word. */
  lemma {:induction false} RivalHangsUp(init: State, run0: seq<Step>, st0: State, c: Cast, before: Scene)
    returns (run: seq<Step>, st: State)
    requires OrderlyTo(init, run0, st0) && Shown(st0, c, before) && before.byte != Vacant && before.word != Free
    requires before.rival == Participant(true, Slotted(c.slot), Granted(c.heir, c.slot)) && before.heir.task == Resting
    ensures OrderlyTo(init, run, st)
    ensures Shown(st, c, before.(rival := Participant(true, Left, Shut(c.heir, c.slot)),
                                 heir := before.heir.(task := Hanging(c.rival, c.slot, before.word))))
  {
    run, st := Next(init, run0, st0, Peer(c.rival, TakeByte));
    run, st := Next(init, run, st, Peer(c.rival, CloseSocket));
    run, st := Next(init, run, st, Serves(c.heir, HangupLoad(c.rival)));
  }

  /** The run is orderly, and the hangup that may follow it erases the record of a process that runs. */
  ghost predicate ErasesAfter(st: State, run: seq<Step>, s: nat, i: nat) {
    Exec(st, run).Some? && OrderlyRun(st, run) &&
    var now := Exec(st, run).value;
    |now.servers| > 0 && ErasesTheLiving(now, Serves(|now.servers| - 1, HangupCas), s, i)
  }

  /** As the heir starts: one client of before is slow, the byte of its slot is free, and a rival is to come. */
  predicate Opening(c: Cast, scene: Scene) {
    && scene.late.alive && scene.late.phase == Slotted(c.slot) && scene.byte == Vacant
    && scene.rival == Participant(true, Starting, Unopened)
    && scene.heir.task == Resting && c.slot !in scene.heir.granted && scene.heir.own != c.slot
  }

  /** The heir grants the slot again. */
  lemma {:induction false} GrantedTwice(st0: State, c: Cast, scene: Scene) returns (run: seq<Step>, st: State)
    requires Shown(st0, c, scene) && Opening(c, scene)
    ensures OrderlyTo(st0, run, st)
    ensures Shown(st, c, scene.(rival := Participant(true, Slotted(c.slot), Granted(c.heir, c.slot)), word := Free,
                                heir := Server(scene.heir.own, scene.heir.granted + {c.slot}, Resting)))
  {
    run, st := HeirOffers(st0, [], st0, c, scene);
    run, st := HeirGrants(st0, run, st, c, scene.(rival := Participant(true, Starting, Waiting(c.heir)), word := Free,
                                                  heir := scene.heir.(task := Offering(c.slot))));
  }

  /** The slow client registers in it. */
  lemma {:induction false} LateRegisters(init: State, run0: seq<Step>, st0: State, c: Cast, before: Scene)
    returns (run: seq<Step>, st: State)
    requires OrderlyTo(init, run0, st0) && Shown(st0, c, before) && before.byte == Vacant && before.word == Free
    requires before.late.alive && before.late.phase == Slotted(c.slot)
    ensures OrderlyTo(init, run, st)
    ensures var i := |before.drawn| + 1;
            Shown(st, c, before.(late := before.late.(phase := Running(c.slot, i)), word := Live(i),
                                 drawn := before.drawn + [c.late], byte := Held(c.late)))
  {
    run, st := LateReserves(init, run0, st0, c, before);
    run, st := LatePublishes(init, run, st, c, before.(late := before.late.(phase := Filling(c.slot)),
                                                       word := Reserved, byte := Held(c.late)));
  }

  lemma {:induction false} HangupIsNext(init: State, run: seq<Step>, st: State, c: Cast, at: Scene, i: nat)
    requires OrderlyTo(init, run, st) && Shown(st, c, at)
    requires at.word == Live(i) && at.heir.task == Hanging(c.rival, c.slot, Live(i))
    requires at.late.alive && at.late.phase == Running(c.slot, i)
    requires 0 < i <= |at.drawn| && at.drawn[i - 1] == c.late
    ensures ErasesAfter(init, run, c.slot, i)
  {
  }

  /** And loses its record to the rival's hangup. */
  lemma {:induction false} LateGranteeLosesItsRecord(st0: State, c: Cast, scene: Scene) returns (run: seq<Step>, i: nat)
    requires Shown(st0, c, scene) && Opening(c, scene)
    ensures ErasesAfter(st0, run, c.slot, i)
  {
    var st;
    i := |scene.drawn| + 1;
    run, st := GrantedTwice(st0, c, scene);
    var at := scene.(rival := Participant(true, Slotted(c.slot), Granted(c.heir, c.slot)), word := Free,
                     heir := Server(scene.heir.own, scene.heir.granted + {c.slot}, Resting));
    run, st := LateRegisters(st0, run, st, c, at);
    at := at.(late := at.late.(phase := Running(c.slot, i)), word := Live(i),
              drawn := at.drawn + [c.late], byte := Held(c.late));
    run, st := RivalHangsUp(st0, run, st, c, at);
    HangupIsNext(st0, run, st, c, at.(rival := Participant(true, Left, Shut(c.heir, c.slot)),
                                      heir := at.heir.(task := Hanging(c.rival, c.slot, Live(i)))), i);
  }

  // ---------------------------------------------------------------------------------------------
  // Grants are of slots
  // ---------------------------------------------------------------------------------------------

  ghost predicate GrantsInRange(st: State) {
    forall p: nat {:trigger st.peers[p]} :: p < |st.peers| && st.peers[p].sock.Granted?
      ==> Slot(st, st.peers[p].sock.slot)
  }

  lemma {:induction false} StepSlot(st: State, step: Step, s: nat)
    requires Enabled(st, step) && Slot(st, s)
    ensures Slot(Apply(st, step), s)
  {
  }

  lemma {:induction false} ServeGranted(st: State, k: nat, serve: ServeAct, p: nat)
    requires ServeEnabled(st, k, serve) && p < |ServeApplied(st, k, serve).peers|
    requires ServeApplied(st, k, serve).peers[p].sock.Granted?
    ensures var sock := ServeApplied(st, k, serve).peers[p].sock;
            p < |st.peers| && (st.peers[p].sock == sock || Slot(st, sock.slot))
  {
  }

  lemma {:induction false} StepInRange(st: State, step: Step)
    requires GrantsInRange(st) && Enabled(st, step)
    ensures GrantsInRange(Apply(st, step))
  {
    var st' := Apply(st, step);
    forall p: nat {:trigger st'.peers[p]} | p < |st'.peers| && st'.peers[p].sock.Granted?
      ensures Slot(st', st'.peers[p].sock.slot)
    {
      var s := st'.peers[p].sock.slot;
      if step.Serves? {
        ServeGranted(st, step.k, step.serve, p);
      } else {
        QuietSockets(st, step, p, s);
      }
      StepSlot(st, step, s);
    }
  }

  lemma {:induction false} ExecInRange(st: State, steps: seq<Step>)
    requires GrantsInRange(st) && Exec(st, steps).Some?
    ensures GrantsInRange(Exec(st, steps).value)
    decreases |steps|
  {
    if steps != [] {
      StepInRange(st, steps[0]);
      ExecInRange(Apply(st, steps[0]), steps[1..]);
    }
  }

  // ---------------------------------------------------------------------------------------------
  // The exact condition
  // ---------------------------------------------------------------------------------------------

  /** In no orderly run from here on does the newest server's hangup erase a running process's record. */
  ghost predicate HangupsSpare(st: State) {
    forall run: seq<Step>, s: nat, i: nat {:trigger ErasesAfter(st, run, s, i)} :: !ErasesAfter(st, run, s, i)
  }

  /** A process has yet to ask for a slot. */
  predicate Fresh(st: State, r: nat) {
    r < |st.peers| && st.peers[r] == Participant(true, Starting, Unopened)
  }

  /** Whoever holds a slot's byte is alive and at work there: the kernel has given back the others'. */
  ghost predicate BytesInUse(st: State) {
    forall s: nat {:trigger st.bytes[s]} :: s < |st.bytes| && st.bytes[s] != Vacant
      ==> st.bytes[s].Held? && Works(st, st.bytes[s].who, s) && Holds(st.peers[st.bytes[s].who].phase, s)
  }

  lemma {:induction false} SettledSpares(st: State, h: nat)
    requires Succession(st) && Enabled(st, Serve(h)) && Settled(st)
    ensures HangupsSpare(Apply(st, Serve(h)))
  {
    var st' := Apply(st, Serve(h));
    StepSuccession(st, Serve(h));
    forall run: seq<Step>, s: nat, i: nat {:trigger ErasesAfter(st', run, s, i)} | ErasesAfter(st', run, s, i)
      ensures false
    {
      ExecSuccession(st', run);
      var now := Exec(st', run).value;
      NewestSpares(now, |now.servers| - 1, s, i);
    }
  }

  lemma {:induction false} HolderIsGrantee(st: State, q: nat, s: nat)
    requires Succession(st) && BytesInUse(st) && ByNewest(st, q, s) && s < |st.bytes|
    ensures st.bytes[s] == Vacant || (st.bytes[s] == Held(q) && Holds(st.peers[q].phase, s))
  {
    assert st.bytes[s].Held? ==> Works(st, st.bytes[s].who, s) ==> st.bytes[s].who == q;
  }

  /** The byte of a slot whose grantee has yet to take it is free, and the heir's own slot is another. */
  lemma {:induction false} PendingByteIsFree(st: State, q: nat)
    requires Succession(st) && GrantsInRange(st) && BytesInUse(st)
    requires q < |st.peers| && st.peers[q].alive && Pending(st.peers[q])
    ensures st.peers[q].sock.Granted? && ByNewest(st, q, st.peers[q].sock.slot)
    ensures st.peers[q].phase.Slotted? ==> st.peers[q].phase.slot == st.peers[q].sock.slot
    ensures Slot(st, st.peers[q].sock.slot) && st.bytes[st.peers[q].sock.slot] == Vacant
  {
    assert SocketFits(st, q);
    var s := st.peers[q].sock.slot;
    assert ByNewest(st, q, s) && Slot(st, s);
    HolderIsGrantee(st, q, s);
  }

  lemma {:induction false} ErasesAfterToo(st: State, step: Step, run: seq<Step>, s: nat, i: nat)
    requires Enabled(st, step) && Orderly(st, step) && ErasesAfter(Apply(st, step), run, s, i)
    ensures ErasesAfter(st, [step] + run, s, i)
  {
    assert ([step] + run)[1..] == run;
  }

  lemma {:induction false} UnsettledErases(st: State, h: nat, q: nat, r: nat) returns (run: seq<Step>, s: nat, i: nat)
    requires Succession(st) && GrantsInRange(st) && BytesInUse(st) && Enabled(st, Serve(h)) && Fresh(st, r)
    requires q < |st.peers| && st.peers[q].alive && Pending(st.peers[q])
    ensures ErasesAfter(Apply(st, Serve(h)), run, s, i)
  {
    PendingByteIsFree(st, q);
    var st' := Apply(st, Serve(h));
    s := st.peers[q].sock.slot;
    assert Holds(st.peers[h].phase, st.peers[h].phase.slot);
    var c := Cast(s, q, r, |st.servers|);
    var late := Participant(true, Slotted(s), st.peers[q].sock);
    var scene := Scene(late, st.peers[r], st'.servers[c.heir], st.words[s], st.minted[s], Vacant);
    if st.peers[q].phase.Starting? {
      var st'' := Apply(st', Peer(q, ReadReply));
      run, i := LateGranteeLosesItsRecord(st'', c, scene);
      ErasesAfterToo(st', Peer(q, ReadReply), run, s, i);
      run := [Peer(q, ReadReply)] + run;
    } else {
      run, i := LateGranteeLosesItsRecord(st', c, scene);
    }
  }

  /**
   The hand-over condition. An heir that starts to serve when no living process is between its grant and
   its byte never erases a running process's record. If one is, a process has yet to ask, and the kernel
   has given back the dead's bytes, then some orderly run from there does.
   */
  lemma {:induction false} HandoverIsSafeExactlyWhenSettled(init: State, steps: seq<Step>, h: nat)
    requires Init(init) && !init.byteFirst && Exec(init, steps).Some? && OrderlyRun(init, steps)
    requires Enabled(Exec(init, steps).value, Serve(h))
    ensures var st := Exec(init, steps).value; Settled(st) ==> HangupsSpare(Apply(st, Serve(h)))
    ensures var st := Exec(init, steps).value;
            BytesInUse(st) && (exists r: nat :: Fresh(st, r)) ==> (HangupsSpare(Apply(st, Serve(h))) <==> Settled(st))
  {
    InitSuccession(init);
    ExecSuccession(init, steps);
    ExecInRange(init, steps);
    var st := Exec(init, steps).value;
    if Settled(st) {
      SettledSpares(st, h);
    } else if BytesInUse(st) && exists r: nat :: Fresh(st, r) {
      var r: nat :| Fresh(st, r);
      var q: int :| 0 <= q < |st.peers| && st.peers[q].alive && Pending(st.peers[q]);
      var run, s, i := UnsettledErases(st, h, q, r);
    }
  }
}
