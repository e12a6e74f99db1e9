/**
 One handshake twice over: as the loop of the owner's serving thread, and as the steps of that thread in
 the participant protocol. Played without interruption, the steps do what the loop does.
 */
module AssignerSteps {
  import opened Options
  import opened Participants
  import opened ParticipantRuns
  import opened Assigner

  /** What the kernel answers about slot `s`, if it answers. */
  function AnswerOf(st: State, s: nat, answered: bool): Answer
    requires s < |st.bytes|
  {
    if !answered then NoAnswer else if st.bytes[s] == Vacant then ByteFree else ByteHeld
  }

  /** The answers to one probe of every slot. */
  function Answers(st: State, answered: nat -> bool): (r: seq<Answer>)
    requires |st.bytes| == |st.words|
    ensures |r| == |st.words|
  {
    seq(|st.words|, s requires 0 <= s < |st.words| => AnswerOf(st, s, answered(s)))
  }

  /** Server `k` has taken up slot `s` for client `p`: it collects, grants, both or neither. */
  function SlotDone(st: State, k: nat, p: nat, s: nat, collects: bool, grants: bool): State
    requires k < |st.servers| && p < |st.peers| && s < |st.words|
  {
    var srv := st.servers[k];
    st.(words := if collects then st.words[s := Free] else st.words,
        peers := if grants then st.peers[p := st.peers[p].(sock := Granted(k, s))] else st.peers,
        servers := st.servers[k := Server(srv.own, if grants then srv.granted + {s} else srv.granted, Resting)])
  }

  /** At rest, with the client's request in hand. */
  predicate Ready(st: State, k: nat, p: nat) {
    && k < |st.servers| && st.servers[k].task == Resting
    && p < |st.peers| && st.peers[p].sock == Waiting(k)
    && |st.bytes| == |st.minted| == |st.words|
  }

  /** Every step of the run is server `k`'s. */
  ghost predicate OnlyServes(run: seq<Step>, k: nat) {
    forall i :: 0 <= i < |run| ==> run[i].Serves? && run[i].k == k
  }

  lemma {:induction false} Offers(init: State, run0: seq<Step>, st0: State, k: nat, p: nat, s: nat, answered: bool)
    returns (run: seq<Step>, st: State)
    requires Exec(init, run0) == Some(st0) && s < |st0.words|
    requires k < |st0.servers| && st0.servers[k].task == Offering(s) && Ready(Tasked(st0, k, Resting), k, p)
    ensures Exec(init, run) == Some(st) && (OnlyServes(run0, k) ==> OnlyServes(run, k))
    ensures st == SlotDone(st0, k, p, s, false, AnswerOf(st0, s, answered) != ByteHeld)
  {
    run, st := Then(init, run0, st0, Serves(k, Offer(p, answered)));
  }

  /** The verdict on a slot that has a record, and the CAS if it is dead. */
  lemma {:induction false} Judges(init: State, run0: seq<Step>, st0: State, k: nat, s: nat, first: bool)
    returns (run: seq<Step>, st: State)
    requires Exec(init, run0) == Some(st0) && k < |st0.servers| && Slot(st0, s)
    requires st0.servers[k].task == Judging(s, st0.words[s])
    ensures Exec(init, run) == Some(st) && (OnlyServes(run0, k) ==> OnlyServes(run, k))
    ensures st == if AnswerOf(st0, s, first) == ByteFree
                  then Tasked(Worded(st0, s, Free), k, Offering(s)) else Tasked(st0, k, Resting)
  {
    run, st := Then(init, run0, st0, Serves(k, ProbeSlot(first)));
    if AnswerOf(st0, s, first) == ByteFree {
      run, st := Then(init, run, st, Serves(k, CasSlot));
    }
  }

  /** The steps one slot takes, from load to rest. */
  lemma {:induction false} OneSlot(init: State, run0: seq<Step>, st0: State, k: nat, p: nat, s: nat,
                                   first: bool, second: bool)
    returns (run: seq<Step>, st: State)
    requires Exec(init, run0) == Some(st0) && Ready(st0, k, p) && s < |st0.words| && s !in st0.servers[k].granted
    ensures Exec(init, run) == Some(st) && (OnlyServes(run0, k) ==> OnlyServes(run, k))
    ensures var collects := st0.words[s] != Free && s != st0.servers[k].own && AnswerOf(st0, s, first) == ByteFree;
            st == SlotDone(st0, k, p, s, collects,
                           (st0.words[s] == Free || collects) && AnswerOf(st0, s, second) != ByteHeld)
  {
    run, st := Then(init, run0, st0, Serves(k, LoadSlot(s)));
    if st0.words[s] == Free {
      run, st := Offers(init, run, st, k, p, s, second);
    } else if s != st0.servers[k].own {
      run, st := Judges(init, run, st, k, s, first);
      if AnswerOf(st0, s, first) == ByteFree {
        run, st := Offers(init, run, st, k, p, s, second);
      }
    }
  }

  /** Only words and the server's task moved, and the server is back at rest. */
  predicate SameBut(init: State, st: State, k: nat) {
    && k < |init.servers| == |st.servers| && st.servers[k] == init.servers[k] && st.peers == init.peers
    && st.bytes == init.bytes && st.minted == init.minted && st.sweepers == init.sweepers
    && |st.words| == |init.words|
  }

  /** The words once the slots below `s` have been taken up. */
  predicate WordsUpTo(init: State, st: State, k: nat, a: seq<Answer>, s: nat)
    requires k < |init.servers| && s <= |init.words| == |a| == |st.words|
  {
    forall t :: 0 <= t < |init.words| ==>
      st.words[t] == if t < s && t !in init.servers[k].granted && Collectable(init.words, init.servers[k].own, a, t)
                     then Free else init.words[t]
  }

  predicate NoneBelow(init: State, k: nat, a: seq<Answer>, b: seq<Answer>, s: nat)
    requires k < |init.servers| && s <= |init.words| == |a| == |b|
  {
    forall t :: 0 <= t < s ==> !Grantable(init.words, init.servers[k].granted, init.servers[k].own, a, b, t)
  }

  lemma {:induction false} SlotTakenUp(init: State, st: State, k: nat, a: seq<Answer>, s: nat, collects: bool,
                                       words: seq<Word>)
    requires k < |init.servers| && s < |a| == |init.words| == |st.words| && WordsUpTo(init, st, k, a, s)
    requires collects <==> s !in init.servers[k].granted && Collectable(init.words, init.servers[k].own, a, s)
    requires words == if collects then st.words[s := Free] else st.words
    ensures WordsUpTo(init, st.(words := words), k, a, s + 1)
  {
  }

  /** Slot `s`, which is not granted, in its turn: a grant if it can be, and otherwise no more than its record. */
  lemma {:induction false} TakesUp(init: State, run0: seq<Step>, st0: State, k: nat, p: nat,
                                   a: seq<Answer>, b: seq<Answer>, s: nat, first: bool, second: bool)
    returns (run: seq<Step>, st: State)
    requires Exec(init, run0) == Some(st0) && Ready(init, k, p) && SameBut(init, st0, k)
    requires s < |a| == |b| == |init.words| && s !in init.servers[k].granted && WordsUpTo(init, st0, k, a, s)
    requires a[s] == AnswerOf(init, s, first) && b[s] == AnswerOf(init, s, second)
    ensures Exec(init, run) == Some(st) && (OnlyServes(run0, k) ==> OnlyServes(run, k))
    ensures |st.words| == |init.words| && WordsUpTo(init, st, k, a, s + 1)
    ensures st.bytes == init.bytes && st.minted == init.minted && st.sweepers == init.sweepers
    ensures |st.servers| == |init.servers|
    ensures var srv := init.servers[k];
            if Grantable(init.words, srv.granted, srv.own, a, b, s)
            then st.peers == init.peers[p := init.peers[p].(sock := Granted(k, s))]
                 && st.servers[k] == Server(srv.own, srv.granted + {s}, Resting)
            else SameBut(init, st, k)
  {
    assert st0.words[s] == init.words[s];
    var collects := Collectable(init.words, init.servers[k].own, a, s);
    run, st := OneSlot(init, run0, st0, k, p, s, first, second);
    SlotTakenUp(init, st0, k, a, s, collects, st.words);
  }

  lemma {:induction false} EndsAssigned(init: State, st: State, k: nat, a: seq<Answer>, b: seq<Answer>,
                                        slot: Option<nat>)
    requires k < |init.servers| == |st.servers| && |a| == |b| == |init.words| == |st.words|
    requires slot.Some? ==> Tried(init.words, slot.value) && NoneBelow(init, k, a, b, slot.value)
                            && WordsUpTo(init, st, k, a, slot.value + 1)
    requires slot.None? ==> var n := if |init.words| < 64 then |init.words| else 64;
                            NoneBelow(init, k, a, b, n) && WordsUpTo(init, st, k, a, n)
    requires slot.Some? ==> Grantable(init.words, init.servers[k].granted, init.servers[k].own, a, b, slot.value)
    requires st.servers[k].granted == init.servers[k].granted + if slot.Some? then {slot.value} else {}
    ensures Assigned(init.words, init.servers[k].granted, init.servers[k].own, a, b, slot,
                     st.words, st.servers[k].granted)
  {
  }

  /**
   From any state in which server `k` is at rest and client `p` has asked, the server's own steps, one
   slot after another, come to a state that is related to the first as the loop's effect is.
   */
  lemma {:induction false} UninterruptedStepsAreAssign(init: State, k: nat, p: nat,
                                                       first: nat -> bool, second: nat -> bool)
    returns (run: seq<Step>, st: State, slot: Option<nat>)
    requires Ready(init, k, p)
    ensures Exec(init, run) == Some(st) && OnlyServes(run, k) && |st.servers| == |init.servers|
    ensures st.servers[k].own == init.servers[k].own && st.servers[k].task == Resting
    ensures Assigned(init.words, init.servers[k].granted, init.servers[k].own, Answers(init, first),
                     Answers(init, second), slot, st.words, st.servers[k].granted)
    ensures st.peers == if slot == None then init.peers
                        else init.peers[p := init.peers[p].(sock := Granted(k, slot.value))]
    ensures st.bytes == init.bytes && st.minted == init.minted && st.sweepers == init.sweepers
  {
    run, st, slot := [], init, None;
    var a, b := Answers(init, first), Answers(init, second);
    var own, granted := init.servers[k].own, init.servers[k].granted;
    for s := 0 to if |init.words| < 64 then |init.words| else 64
      invariant Exec(init, run) == Some(st) && OnlyServes(run, k) && SameBut(init, st, k)
      invariant NoneBelow(init, k, a, b, s) && WordsUpTo(init, st, k, a, s)
    {
      if s in granted {
        SlotTakenUp(init, st, k, a, s, false, st.words);
        continue;
      }
      run, st := TakesUp(init, run, st, k, p, a, b, s, first(s), second(s));
      if Grantable(init.words, granted, own, a, b, s) {
        slot := Some(s);
        EndsAssigned(init, st, k, a, b, slot);
        return;
      }
    }
    EndsAssigned(init, st, k, a, b, None);
  }

  /** A client of server `k`, granted slot `s`, has closed its socket, and the server is at rest. */
  predicate HungUp(st: State, k: nat, p: nat, s: nat) {
    && k < |st.servers| && st.servers[k].task == Resting
    && p < |st.peers| && st.peers[p].sock == Shut(k, s) && Slot(st, s)
  }

  /** The hangup, twice over too: one load, and one compare-exchange if there is a record. */
  lemma {:induction false} UninterruptedStepsAreHangup(init: State, k: nat, p: nat, s: nat)
    returns (run: seq<Step>, st: State)
    requires HungUp(init, k, p, s)
    ensures Exec(init, run) == Some(st) && OnlyServes(run, k) && |run| == (if init.words[s] == Free then 1 else 2)
    ensures st.words == init.words[s := Free] && st.peers == init.peers[p := init.peers[p].(sock := Closed)]
    ensures var srv := init.servers[k];
            st.servers == init.servers[k := Server(srv.own, srv.granted - {s}, Resting)]
    ensures st.bytes == init.bytes && st.minted == init.minted && st.sweepers == init.sweepers
  {
    run, st := Then(init, [], init, Serves(k, HangupLoad(p)));
    if init.words[s] != Free {
      run, st := Then(init, run, st, Serves(k, HangupCas));
    }
  }
}
