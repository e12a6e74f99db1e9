/**
 One participant's own way in and out, when nobody interrupts it, and one sweep of one slot: what each
 comes to, from the state it meets.
 */
module ParticipantAttach {
  import opened Options
  import opened Participants
  import opened ParticipantRuns
  import A = Assigner

  /** Every step of the run is participant `p`'s own. */
  ghost predicate OnlyPeer(run: seq<Step>, p: nat) {
    forall i :: 0 <= i < |run| ==> run[i].Peer? && run[i].p == p
  }

  /** Participant `p` has read the grant of slot `s`. */
  predicate Named(st: State, p: nat, s: nat) {
    && p < |st.peers| && st.peers[p].alive && st.peers[p].phase == Slotted(s) && st.peers[p].sock.Granted?
    && Slot(st, s)
  }

  /** What attaching comes to: the phase, the record, the byte and the slot's incarnations. */
  datatype Attached = Attached(phase: Phase, word: Word, byte: Holder, drawn: seq<nat>)

  /** A held byte turns it away, a reader takes the byte alone, and a record that is not free is left alone. */
  function AttachOf(word: Word, byte: Holder, drawn: seq<nat>, p: nat, s: nat, reader: bool): Attached {
    if byte != Vacant then Attached(Left, word, byte, drawn)
    else if reader then Attached(Reading(s), word, Held(p), drawn)
    else if word != Free then Attached(Left, word, Vacant, drawn)
    else Attached(Running(s, |drawn| + 1), Live(|drawn| + 1), Held(p), drawn + [p])
  }

  /** From `st` to `st'` participant `p` came to this in slot `s`; nothing else has changed. */
  predicate Comes(st: State, st': State, p: nat, s: nat, to: Attached) {
    && p < |st.peers| && Slot(st, s)
    && st'.words == st.words[s := to.word] && st'.bytes == st.bytes[s := to.byte]
    && st'.minted == st.minted[s := to.drawn]
    && st'.peers == st.peers[p := Participant(st.peers[p].alive, to.phase, st.peers[p].sock)]
    && st'.sweepers == st.sweepers && st'.servers == st.servers && st'.byteFirst == st.byteFirst
  }

  /** A record that is not free turns the writer away, and it gives the byte back. */
  lemma {:induction false} TurnedAway(init: State, run0: seq<Step>, st0: State, p: nat, s: nat)
    returns (run: seq<Step>, st: State)
    requires Exec(init, run0) == Some(st0) && p < |st0.peers| && st0.peers[p].alive
    requires st0.peers[p].phase == HasByte(s) && Slot(st0, s) && st0.words[s] != Free
    ensures Exec(init, run) == Some(st) && (OnlyPeer(run0, p) ==> OnlyPeer(run, p))
    ensures Comes(st0, st, p, s, Attached(Left, st0.words[s], Vacant, st0.minted[s]))
  {
    run, st := Then(init, run0, st0, Peer(p, Reserve));
    run, st := Then(init, run, st, Peer(p, DropByte));
  }

  lemma {:induction false} Registered(init: State, run0: seq<Step>, st0: State, p: nat, s: nat)
    returns (run: seq<Step>, st: State)
    requires Exec(init, run0) == Some(st0) && p < |st0.peers| && st0.peers[p].alive
    requires st0.peers[p].phase == HasByte(s) && Slot(st0, s) && st0.words[s] == Free && st0.bytes[s] == Held(p)
    ensures Exec(init, run) == Some(st) && (OnlyPeer(run0, p) ==> OnlyPeer(run, p))
    ensures var i := |st0.minted[s]| + 1;
            Comes(st0, st, p, s, Attached(Running(s, i), Live(i), Held(p), st0.minted[s] + [p]))
  {
    run, st := Then(init, run0, st0, Peer(p, Reserve));
    run, st := Then(init, run, st, Peer(p, Mint));
    run, st := Then(init, run, st, Peer(p, Publish));
  }

  /** From any state in which it has been named a slot, a participant's own steps attach it as the table says. */
  lemma {:induction false} AnUninterruptedAttach(st0: State, p: nat, s: nat, reader: bool)
    returns (run: seq<Step>, st: State)
    requires Named(st0, p, s)
    ensures Exec(st0, run) == Some(st) && OnlyPeer(run, p)
    ensures Comes(st0, st, p, s, AttachOf(st0.words[s], st0.bytes[s], st0.minted[s], p, s, reader))
  {
    run, st := Then(st0, [], st0, Peer(p, TakeByte));
    if st0.bytes[s] == Vacant {
      if reader {
        run, st := Then(st0, run, st, Peer(p, StayReader));
      } else if st0.words[s] != Free {
        run, st := TurnedAway(st0, run, st, p, s);
      } else {
        run, st := Registered(st0, run, st, p, s);
      }
    }
  }

  /** Participant `p` is in slot `s`, with a record or as a reader. */
  predicate Inside(st: State, p: nat, s: nat) {
    && p < |st.peers| && st.peers[p].alive && Slot(st, s)
    && (st.peers[p].phase == Reading(s) || (st.peers[p].phase.Running? && st.peers[p].phase.slot == s))
  }

  /** Only a record that is still its own goes with it. */
  function DetachOf(phase: Phase, word: Word, drawn: seq<nat>): Attached {
    Attached(Left, if phase.Running? && word == Live(phase.inc) then Free else word, Vacant, drawn)
  }

  /** From any state in which it is attached, its own steps take its record, if it is its own, and its byte. */
  lemma {:induction false} AnUninterruptedDetach(st0: State, p: nat, s: nat) returns (run: seq<Step>, st: State)
    requires Inside(st0, p, s)
    ensures Exec(st0, run) == Some(st) && OnlyPeer(run, p)
    ensures Comes(st0, st, p, s, DetachOf(st0.peers[p].phase, st0.words[s], st0.minted[s]))
  {
    run, st := Then(st0, [], st0, Peer(p, ReleaseRecord));
    run, st := Then(st0, run, st, Peer(p, DropByte));
  }

  /** In and out again: the slot is as it was, but for the incarnation that was drawn. */
  lemma {:induction false} InAndOutLeavesTheSlot(word: Word, drawn: seq<nat>, p: nat, s: nat, reader: bool)
    ensures var there := AttachOf(word, Vacant, drawn, p, s, reader);
            there.phase != Left ==>
              var back := DetachOf(there.phase, there.word, there.drawn);
              && back.word == word && back.byte == Vacant && back.phase == Left
              && back.drawn == if reader then drawn else drawn + [p]
  {
  }

  /** Whoever has not taken a byte yet may give up at any time, and leaves nothing. */
  lemma {:induction false} GivingUpLeavesNothing(st: State, p: nat)
    requires p < |st.peers| && st.peers[p].alive && (st.peers[p].phase.Starting? || st.peers[p].phase.Slotted?)
    ensures Enabled(st, Peer(p, GiveUp))
    ensures Apply(st, Peer(p, GiveUp)) == st.(peers := st.peers[p := st.peers[p].(phase := Left)])
  {
  }

  // ---------------------------------------------------------------------------------------------
  // One slot of a sweep
  // ---------------------------------------------------------------------------------------------

  /** What the kernel answers to the sweeper's probe of slot `s`. */
  function AnswerOf(st: State, s: nat, answered: bool): A.Answer
    requires s < |st.bytes|
  {
    if !answered then A.NoAnswer else if st.bytes[s] == Vacant then A.ByteFree else A.ByteHeld
  }

  /**
   From any state in which sweeper `j` is idle, its own steps do to one slot what the sweep's verdict says:
   a record of somebody else whose byte reads free is freed, and everything else is as it was.
   */
  lemma {:induction false} UninterruptedStepsAreASweep(st0: State, j: nat, s: nat, answered: bool)
    returns (run: seq<Step>, st: State)
    requires !st0.byteFirst && j < |st0.sweepers| && st0.sweepers[j].at == Idle && Slot(st0, s)
    ensures Exec(st0, run) == Some(st) && forall i :: 0 <= i < |run| ==> run[i].Sweeps? && run[i].j == j
    ensures var verdict := A.ReclamationVerdict(st0.words[s], st0.sweepers[j].own, s, AnswerOf(st0, s, answered));
            st == if verdict.Reclaimable? then st0.(words := st0.words[s := Free]) else st0
    ensures s == st0.sweepers[j].own ==> !Enabled(st0, Sweeps(j, Load(s)))
  {
    run, st := [], st0;
    if s != st0.sweepers[j].own {
      run, st := Then(st0, run, st, Sweeps(j, Load(s)));
      if st0.words[s] != Free {
        run, st := Then(st0, run, st, Sweeps(j, Probe(answered)));
        if AnswerOf(st0, s, answered) == A.ByteFree {
          run, st := Then(st0, run, st, Sweeps(j, Cas));
        }
      }
    }
    assert st.sweepers == st0.sweepers;
  }
}
