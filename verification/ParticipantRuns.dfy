/**
 Single runs that show where the protocol's safety stops: each is a list of steps from a new arena.
 */
module ParticipantRuns {
  import opened Options
  import opened Participants
  import opened ParticipantSafety

  /** A new arena with three slots, a creator, three more processes and two sweepers. */
  function NewArena(byteFirst: bool): (st: State)
    ensures Init(st)
  {
    var p := Participant(true, Starting, Unopened);
    State(byteFirst, [Free, Free, Free], [[], [], []], [Held(0), Vacant, Vacant],
          [Participant(true, HasByte(0), Unopened), p, p, p], [Sweeper(0, Idle), Sweeper(0, Idle)], [])
  }

  lemma {:induction false} ExecAppend(st: State, xs: seq<Step>, ys: seq<Step>)
    requires Exec(st, xs).Some?
    ensures Exec(st, xs + ys) == Exec(Exec(st, xs).value, ys)
    decreases |xs|
  {
    if xs == [] {
      assert xs + ys == ys;
    } else {
      assert (xs + ys)[0] == xs[0] && (xs + ys)[1..] == xs[1..] + ys;
      ExecAppend(Apply(st, xs[0]), xs[1..], ys);
    }
  }

  /** Lengthens a run by one step. */
  lemma {:induction false} Then(init: State, run: seq<Step>, st: State, step: Step)
    returns (run': seq<Step>, st': State)
    requires Exec(init, run) == Some(st) && Enabled(st, step)
    ensures run' == run + [step] && st' == Apply(st, step) && Exec(init, run') == Some(st')
  {
    run', st' := run + [step], Apply(st, step);
    ExecAppend(init, run, [step]);
    assert Exec(st', []) == Some(st');
  }

  /** The creator registers and serves. */
  lemma {:induction false} CreatorServes(byteFirst: bool) returns (run: seq<Step>, st: State)
    ensures Exec(NewArena(byteFirst), run) == Some(st)
    ensures var runs := Participant(true, Running(0, 1), Unopened);
            st == NewArena(byteFirst).(words := [Live(1), Free, Free], minted := [[0], [], []],
                                       peers := NewArena(byteFirst).peers[0 := runs],
                                       servers := [Server(0, {}, Resting)])
  {
    var init := NewArena(byteFirst);
    run, st := Then(init, [], init, Peer(0, Reserve));
    run, st := Then(init, run, st, Peer(0, Mint));
    assert st.minted[0] == [0];
    run, st := Then(init, run, st, Peer(0, Publish));
    assert st.words == [Live(1), Free, Free];
    run, st := Then(init, run, st, Serve(0));
    assert st.servers == [Server(0, {}, Resting)] && st.minted == [[0], [], []];
  }

  /** Server `k` grants slot `s` to participant `p`, who reads the reply. */
  lemma {:induction false} Grants(init: State, run0: seq<Step>, st0: State, k: nat, p: nat, s: nat, answered: bool)
    returns (run: seq<Step>, st: State)
    requires Exec(init, run0) == Some(st0)
    requires p < |st0.peers| && st0.peers[p] == Participant(true, Starting, Unopened)
    requires k < |st0.servers| && st0.servers[k].task == Resting && s !in st0.servers[k].granted
    requires Slot(st0, s) && st0.words[s] == Free && (answered ==> st0.bytes[s] == Vacant)
    ensures Exec(init, run) == Some(st)
    ensures st == st0.(peers := st0.peers[p := Participant(true, Slotted(s), Granted(k, s))],
                       servers := st0.servers[k := Server(st0.servers[k].own, st0.servers[k].granted + {s}, Resting)])
  {
    run, st := Then(init, run0, st0, Peer(p, Connect(k)));
    run, st := Then(init, run, st, Serves(k, LoadSlot(s)));
    run, st := Then(init, run, st, Serves(k, Offer(p, answered)));
    run, st := Then(init, run, st, Peer(p, ReadReply));
  }

  /** Participant `p`, who was named slot `s`, takes its byte and wins `FREE -> RESERVED`. */
  lemma {:induction false} Reserves(init: State, run0: seq<Step>, st0: State, p: nat, s: nat)
    returns (run: seq<Step>, st: State)
    requires Exec(init, run0) == Some(st0)
    requires p < |st0.peers| && st0.peers[p].alive && st0.peers[p].phase == Slotted(s)
    requires Slot(st0, s) && st0.words[s] == Free && st0.bytes[s] == Vacant
    ensures Exec(init, run) == Some(st)
    ensures st == st0.(words := st0.words[s := Reserved], bytes := st0.bytes[s := Held(p)],
                       peers := st0.peers[p := st0.peers[p].(phase := Filling(s))])
  {
    run, st := Then(init, run0, st0, Peer(p, TakeByte));
    run, st := Then(init, run, st, Peer(p, Reserve));
  }

  lemma {:induction false} Draws(init: State, run0: seq<Step>, st0: State, p: nat, s: nat)
    returns (run: seq<Step>, st: State)
    requires Exec(init, run0) == Some(st0)
    requires p < |st0.peers| && st0.peers[p].alive && st0.peers[p].phase == Filling(s)
    requires Slot(st0, s) && st0.minted[s] == []
    ensures Exec(init, run) == Some(st)
    ensures st == st0.(minted := st0.minted[s := [p]], peers := st0.peers[p := st0.peers[p].(phase := Numbered(s, 1))])
  {
    run, st := Then(init, run0, st0, Peer(p, Mint));
    assert st0.minted[s] + [p] == [p];
  }

  /** The registrant of slot `s` publishes, whatever its word has come to be. */
  lemma {:induction false} Publishes(init: State, run0: seq<Step>, st0: State, p: nat, s: nat)
    returns (run: seq<Step>, st: State)
    requires Exec(init, run0) == Some(st0)
    requires p < |st0.peers| && st0.peers[p].alive && st0.peers[p].phase == Filling(s)
    requires Slot(st0, s) && st0.minted[s] == []
    ensures Exec(init, run) == Some(st)
    ensures st == st0.(words := st0.words[s := Live(1)], minted := st0.minted[s := [p]],
                       peers := st0.peers[p := st0.peers[p].(phase := Running(s, 1))])
  {
    run, st := Draws(init, run0, st0, p, s);
    run, st := Then(init, run, st, Peer(p, Publish));
  }

  lemma {:induction false} Registers(init: State, run0: seq<Step>, st0: State, p: nat, s: nat)
    returns (run: seq<Step>, st: State)
    requires Exec(init, run0) == Some(st0)
    requires p < |st0.peers| && st0.peers[p].alive && st0.peers[p].phase == Slotted(s)
    requires Slot(st0, s) && st0.words[s] == Free && st0.bytes[s] == Vacant && st0.minted[s] == []
    ensures Exec(init, run) == Some(st)
    ensures st == st0.(words := st0.words[s := Live(1)], minted := st0.minted[s := [p]],
                       bytes := st0.bytes[s := Held(p)],
                       peers := st0.peers[p := st0.peers[p].(phase := Running(s, 1))])
  {
    run, st := Reserves(init, run0, st0, p, s);
    run, st := Publishes(init, run, st, p, s);
    assert st.words == st0.words[s := Live(1)];
    assert st.peers == st0.peers[p := st0.peers[p].(phase := Running(s, 1))];
  }

  predicate At(st: State, p: nat, phase: Phase) {
    p < |st.peers| && st.peers[p].alive && st.peers[p].phase == phase
  }

  /** Probing the byte before loading the word loses a record: the read order is necessary. */
  lemma {:induction false} ProbingFirstErasesALiveRecord() returns (init: State, run: seq<Step>, step: Step)
    ensures Init(init) && init.byteFirst && Exec(init, run).Some?
    ensures ReclaimingCas(step) && ErasesTheLiving(Exec(init, run).value, step, 1, 1)
  {
    init := NewArena(true);
    var st;
    run, st := CreatorServes(true);
    run, st := Grants(init, run, st, 0, 1, 1, true);
    run, st := Then(init, run, st, Sweeps(0, Peek(1)));
    run, st := Registers(init, run, st, 1, 1);
    run, st := Then(init, run, st, Sweeps(0, PeekLoad));
    step := Sweeps(0, Cas);
  }

  /** Owner 0 grants slot 1 to 1, who registers, and slot 2 to 2, who is slow; 0 dies and 1 serves. */
  lemma {:induction false} HeirServes(init: State) returns (run: seq<Step>, st: State)
    requires init == NewArena(false)
    ensures Exec(init, run) == Some(st)
    ensures |st.words| == |st.minted| == |st.bytes| == 3 && |st.peers| == 4 && |st.servers| == 2
    ensures st.words[2] == Free && st.minted[2] == [] && st.bytes[2] == Vacant
    ensures st.peers[2] == Participant(true, Slotted(2), Granted(0, 2))
    ensures st.peers[3] == Participant(true, Starting, Unopened)
    ensures st.servers[1] == Server(1, {}, Resting)
    ensures !st.byteFirst
  {
    run, st := CreatorServes(false);
    run, st := Grants(init, run, st, 0, 1, 1, true);
    run, st := Registers(init, run, st, 1, 1);
    run, st := Grants(init, run, st, 0, 2, 2, true);
    run, st := Then(init, run, st, Die(0));
    run, st := Then(init, run, st, Serve(1));
  }

  /**
   A second serving thread forgets the first one's grants, and its hangup callback erases the live
   record of a process that runs: 1 inherits from the dead owner 0 while 2 still holds 0's grant of
   slot 2, and grants the same slot to 3, who finds the byte taken and hangs up.
   */
  lemma {:induction false} TwoServersEraseALiveRecord() returns (init: State, run: seq<Step>, step: Step)
    ensures Init(init) && !init.byteFirst && Exec(init, run).Some?
    ensures |Exec(init, run).value.servers| == 2
    ensures step == Serves(1, HangupCas) && ErasesTheLiving(Exec(init, run).value, step, 2, 1)
  {
    init := NewArena(false);
    var st;
    run, st := HeirServes(init);
    run, st := Grants(init, run, st, 1, 3, 2, true);
    run, st := Registers(init, run, st, 2, 2);
    run, st := Then(init, run, st, Peer(3, TakeByte));
    run, st := Then(init, run, st, Peer(3, CloseSocket));
    run, st := Then(init, run, st, Serves(1, HangupLoad(3)));
    step := Serves(1, HangupCas);
  }

  /** Participant 2, granted slot 2 by owner 0, holds its byte and has no record yet; 1 serves. */
  lemma {:induction false} HeirServesSettled(init: State) returns (run: seq<Step>, st: State)
    requires init == NewArena(false)
    ensures Exec(init, run) == Some(st)
    ensures |st.words| == |st.minted| == |st.bytes| == 3 && |st.peers| == 4 && |st.servers| == 2
    ensures st.words[2] == Free && st.minted[2] == [] && st.bytes[2] == Held(2)
    ensures st.peers[2] == Participant(true, HasByte(2), Granted(0, 2))
    ensures st.peers[3] == Participant(true, Starting, Unopened)
    ensures st.servers[1] == Server(1, {}, Resting)
    ensures !st.byteFirst
  {
    run, st := CreatorServes(false);
    run, st := Grants(init, run, st, 0, 1, 1, true);
    run, st := Registers(init, run, st, 1, 1);
    run, st := Grants(init, run, st, 0, 2, 2, true);
    run, st := Then(init, run, st, Peer(2, TakeByte));
    run, st := Then(init, run, st, Serve(1));
  }

  /** The heir's second probe goes unanswered, and it grants slot 2, whose byte is held, to 3; 2 publishes. */
  lemma {:induction false} HeldSlotGrantedAgain(init: State) returns (run: seq<Step>, st: State)
    requires init == NewArena(false)
    ensures Exec(init, run) == Some(st)
    ensures |st.words| == |st.minted| == |st.bytes| == 3 && |st.peers| == 4 && |st.servers| == 2
    ensures st.words[2] == Live(1) && st.minted[2] == [2] && st.bytes[2] == Held(2)
    ensures st.peers[2] == Participant(true, Running(2, 1), Granted(0, 2))
    ensures st.peers[3] == Participant(true, Slotted(2), Granted(1, 2))
    ensures st.servers[1] == Server(1, {2}, Resting)
  {
    run, st := HeirServesSettled(init);
    run, st := Grants(init, run, st, 1, 3, 2, false);
    run, st := Then(init, run, st, Peer(2, Reserve));
    run, st := Publishes(init, run, st, 2, 2);
  }

  /** Client 3 finds the byte of slot 2 taken, and hangs up. */
  lemma {:induction false} RefusedClientHangsUp(init: State) returns (run: seq<Step>, st: State)
    requires init == NewArena(false)
    ensures Exec(init, run) == Some(st)
    ensures |st.words| == |st.minted| == |st.bytes| == 3 && |st.peers| == 4 && |st.servers| == 2
    ensures st.words[2] == Live(1) && st.minted[2] == [2]
    ensures st.peers[2] == Participant(true, Running(2, 1), Granted(0, 2))
    ensures st.peers[3] == Participant(true, Left, Shut(1, 2))
    ensures st.servers[1] == Server(1, {2}, Resting)
  {
    run, st := HeldSlotGrantedAgain(init);
    run, st := Then(init, run, st, Peer(3, TakeByte));
    run, st := Then(init, run, st, Peer(3, CloseSocket));
  }

  /**
   The second probe has to be answered: no answer reads as free. The client that was granted a slot
   whose byte is held finds that out and hangs up, and the hangup erases the live record in the slot.
   */
  lemma {:induction false} AnUnansweredProbeErasesALiveRecord() returns (init: State, run: seq<Step>, step: Step)
    ensures Init(init) && !init.byteFirst && Exec(init, run).Some?
    ensures step == Serves(1, HangupCas) && ErasesTheLiving(Exec(init, run).value, step, 2, 1)
  {
    init := NewArena(false);
    var st;
    run, st := RefusedClientHangsUp(init);
    run, st := Then(init, run, st, Serves(1, HangupLoad(3)));
    step := Serves(1, HangupCas);
  }

  /** A registrant of slot 1 dies RESERVED; a sweeper has judged it, and the hangup frees it first. */
  lemma {:induction false} JudgedBeforeTheHangup(init: State) returns (run: seq<Step>, st: State)
    requires init == NewArena(false)
    ensures Exec(init, run) == Some(st)
    ensures st == State(false, [Live(1), Free, Free], [[0], [], []], [Held(0), Vacant, Vacant],
                        [Participant(true, Running(0, 1), Unopened), Participant(false, Filling(1), Closed),
                         Participant(true, Starting, Unopened), Participant(true, Starting, Unopened)],
                        [Sweeper(0, SawFree(1, Reserved)), Sweeper(0, Idle)], [Server(0, {}, Resting)])
  {
    run, st := CreatorServes(false);
    run, st := Grants(init, run, st, 0, 1, 1, true);
    run, st := Reserves(init, run, st, 1, 1);
    run, st := Then(init, run, st, Die(1));
    run, st := Then(init, run, st, KernelDropsByte(1, 1));
    run, st := Then(init, run, st, Sweeps(0, Load(1)));
    run, st := Then(init, run, st, Sweeps(0, Probe(true)));
    assert st.sweepers == [Sweeper(0, SawFree(1, Reserved)), Sweeper(0, Idle)];
    run, st := Then(init, run, st, KernelClosesSocket(1));
    run, st := Then(init, run, st, Serves(0, HangupLoad(1)));
    run, st := Then(init, run, st, Serves(0, HangupCas));
    assert st.servers == [Server(0, {}, Resting)];
    assert st.words == [Live(1), Free, Free];
    assert st.bytes == [Held(0), Vacant, Vacant];
    assert st.peers == [Participant(true, Running(0, 1), Unopened), Participant(false, Filling(1), Closed),
                        Participant(true, Starting, Unopened), Participant(true, Starting, Unopened)];
  }

  /**
   A reclaimer's stale CAS may free the RESERVED word of a registrant that runs: RESERVED carries no
   incarnation. The registrant publishes over it all the same.
   */
  lemma {:induction false} AStaleCasFreesAReservedWord() returns (init: State, run: seq<Step>, run': seq<Step>)
    ensures Init(init) && !init.byteFirst && Exec(init, run).Some? && Exec(init, run').Some?
    ensures var st := Exec(init, run).value;
            At(st, 2, Filling(1)) && |st.words| > 1 && st.words[1] == Free
    ensures var st := Exec(init, run').value;
            At(st, 2, Running(1, 1)) && |st.words| > 1 && st.words[1] == Live(1)
  {
    init := NewArena(false);
    var st;
    run, st := JudgedBeforeTheHangup(init);
    run, st := Grants(init, run, st, 0, 2, 1, true);
    run, st := Reserves(init, run, st, 2, 1);
    run, st := Then(init, run, st, Sweeps(0, Cas));
    run', st := Publishes(init, run, st, 2, 1);
  }
}
