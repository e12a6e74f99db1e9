/**
 Who may mutate the topology: a per-tree mutex, then the lock file's topology byte, then the word in
 the arena, given back in the reverse order. A word left by a dead holder may be stolen on the say-so
 of a predicate about processes; nothing here relies on what that predicate answers.
 */
module TopologyLock {
  import opened Options

  /** The arena word names a slot; `setter` is the thread that stored it, which the word does not say. */
  datatype Word = Clear | Names(slot: nat, setter: nat)

  datatype Pc =
    | Idle
    | Locked               // the tree's mutex
    | ByteHeld             // and the byte
    | Observed(slot: nat)  // and has given up spinning on a word that names `slot`
    | Mutating             // and the word: both locks are taken
    | WordDropped
    | ByteDropped

  datatype Tree = Tree(slot: nat, alive: bool)
  datatype Thread = Thread(tree: nat, pc: Pc)

  datatype State = State(
    useMutex: bool,
    word: Word,
    byte: Option<nat>,          // the tree whose description holds it
    mutexes: seq<Option<nat>>,  // per tree, the thread that holds its mutex
    trees: seq<Tree>,
    threads: seq<Thread>)

  datatype Act =
    | Lock
    | TakeByte(answered: bool)
    | SwapWord
    | Observe
    | Steal              // the predicate answered that the named holder is gone
    | ReleaseWord
    | DropByte           // the end of a mutation, or of an attempt the word refused
    | GiveUp             // the byte stayed contended
    | Unlock

  datatype Step = Does(t: nat, act: Act) | Die(d: nat) | KernelDropsByte(d: nat)

  /** Past taking the byte and not yet past dropping it. */
  predicate HoldsByte(pc: Pc) {
    pc.ByteHeld? || pc.Observed? || pc.Mutating? || pc.WordDropped?
  }

  predicate Living(st: State, t: nat) {
    && t < |st.threads| && st.threads[t].tree < |st.trees| && st.threads[t].tree < |st.mutexes|
    && st.trees[st.threads[t].tree].alive
  }

  function Slot(st: State, t: nat): nat
    requires Living(st, t)
  {
    st.trees[st.threads[t].tree].slot
  }

  function Pcd(st: State, t: nat, pc: Pc): State
    requires t < |st.threads|
  {
    st.(threads := st.threads[t := st.threads[t].(pc := pc)])
  }

  predicate ActEnabled(st: State, t: nat, act: Act) {
    Living(st, t) &&
    var pc := st.threads[t].pc;
    match act
    case Lock => pc.Idle? && (st.useMutex ==> st.mutexes[st.threads[t].tree] == None)
    case TakeByte(_) => pc.Locked?
    case SwapWord => pc.ByteHeld? && st.word.Clear?
    case Observe => pc.ByteHeld? && st.word.Names?
    case Steal => pc.Observed? && pc.slot != Slot(st, t)
    case ReleaseWord => pc.Mutating?
    case DropByte => pc.WordDropped? || pc.ByteHeld? || pc.Observed?
    case GiveUp => pc.Locked?
    case Unlock => pc.ByteDropped?
  }

  predicate Enabled(st: State, step: Step) {
    match step
    case Does(t, act) => ActEnabled(st, t, act)
    case Die(d) => d < |st.trees| && st.trees[d].alive
    case KernelDropsByte(d) => d < |st.trees| && !st.trees[d].alive && st.byte == Some(d)
  }

  function Acted(st: State, t: nat, act: Act): State
    requires ActEnabled(st, t, act)
  {
    var pc := st.threads[t].pc;
    var d := st.threads[t].tree;
    match act
    case Lock => Pcd(st, t, Locked).(mutexes := st.mutexes[d := Some(t)])
    case TakeByte(answered) =>
      // A description does not conflict with its own lock.
      if answered && (st.byte == None || st.byte == Some(d)) then Pcd(st, t, ByteHeld).(byte := Some(d)) else st
    case SwapWord => Pcd(st, t, Mutating).(word := Names(Slot(st, t), t))
    case Observe => Pcd(st, t, Observed(st.word.slot))
    case Steal =>
      if st.word.Names? && st.word.slot == pc.slot then Pcd(st, t, Mutating).(word := Names(Slot(st, t), t))
      else st
    case ReleaseWord =>
      var dropped := Pcd(st, t, WordDropped);
      if st.word.Names? && st.word.slot == Slot(st, t) then dropped.(word := Clear) else dropped
    case DropByte =>
      var dropped := Pcd(st, t, ByteDropped);
      if st.byte == Some(d) then dropped.(byte := None) else dropped
    case GiveUp => Pcd(st, t, ByteDropped)
    case Unlock => Pcd(st, t, Idle).(mutexes := st.mutexes[d := None])
  }

  function Apply(st: State, step: Step): State
    requires Enabled(st, step)
  {
    match step
    case Does(t, act) => Acted(st, t, act)
    case Die(d) => st.(trees := st.trees[d := st.trees[d].(alive := false)])
    case KernelDropsByte(_) => st.(byte := None)
  }

  function Exec(st: State, steps: seq<Step>): Option<State>
    decreases |steps|
  {
    if steps == [] then Some(st)
    else if Enabled(st, steps[0]) then Exec(Apply(st, steps[0]), steps[1..])
    else None
  }

  /** Any trees, alive, with any number of threads each; slots need not differ, for a slot is reused. */
  ghost predicate Init(st: State) {
    && st.word == Clear && st.byte == None && |st.mutexes| == |st.trees|
    && (forall d :: 0 <= d < |st.mutexes| ==> st.mutexes[d] == None)
    && (forall t :: 0 <= t < |st.threads| ==> st.threads[t].tree < |st.trees| && st.threads[t].pc == Idle)
  }

  // ---------------------------------------------------------------------------------------------
  // What every run keeps when the mutex is used
  // ---------------------------------------------------------------------------------------------

  ghost predicate Inv(st: State) {
    && st.useMutex && |st.mutexes| == |st.trees|
    && (forall t :: 0 <= t < |st.threads| ==> st.threads[t].tree < |st.trees|)
    && (forall t: nat {:trigger Living(st, t)} :: Living(st, t) && !st.threads[t].pc.Idle?
          ==> st.mutexes[st.threads[t].tree] == Some(t))
    && (forall t: nat {:trigger Living(st, t)} :: Living(st, t) && HoldsByte(st.threads[t].pc)
          ==> st.byte == Some(st.threads[t].tree))
    && (forall t: nat {:trigger Living(st, t)} :: Living(st, t) && st.threads[t].pc.Mutating?
          ==> st.word == Names(Slot(st, t), t))
    && (st.word.Names? ==>
          && st.word.setter < |st.threads|
          && st.word.slot == st.trees[st.threads[st.word.setter].tree].slot
          && (Living(st, st.word.setter) ==> st.threads[st.word.setter].pc.Mutating?))
    && ObservedStays(st)
  }

  /** The word a living byte holder has given up spinning on is still there: nobody else may move it. */
  ghost predicate ObservedStays(st: State) {
    forall t: nat {:trigger Living(st, t)} :: Living(st, t) && st.threads[t].pc.Observed?
      ==> st.word.Names? && st.word.slot == st.threads[t].pc.slot
  }

  lemma {:induction false} InitInv(st: State)
    requires Init(st) && st.useMutex
    ensures Inv(st)
  {
  }

  /** Two living threads past taking the byte are one: same byte, same tree, same mutex. */
  lemma {:induction false} OneHolder(st: State, t: nat, u: nat)
    requires Inv(st) && Living(st, t) && Living(st, u) && HoldsByte(st.threads[t].pc) && HoldsByte(st.threads[u].pc)
    ensures t == u
  {
  }

  lemma {:induction false} ActInv(st: State, t: nat, act: Act)
    requires Inv(st) && ActEnabled(st, t, act)
    ensures Inv(Acted(st, t, act))
  {
    var st' := Acted(st, t, act);
    forall u: nat {:trigger Living(st', u)} | Living(st', u)
      ensures !st'.threads[u].pc.Idle? ==> st'.mutexes[st'.threads[u].tree] == Some(u)
      ensures HoldsByte(st'.threads[u].pc) ==> st'.byte == Some(st'.threads[u].tree)
      ensures st'.threads[u].pc.Mutating? ==> st'.word == Names(Slot(st', u), u)
      ensures st'.threads[u].pc.Observed? ==> st'.word.Names? && st'.word.slot == st'.threads[u].pc.slot
    {
      assert Living(st, u);
      if HoldsByte(st.threads[u].pc) && HoldsByte(st.threads[t].pc) {
        OneHolder(st, t, u);
      }
    }
    assert st'.word.Names? ==> (Living(st', st'.word.setter) ==> Living(st, st'.word.setter));
  }

  lemma {:induction false} StepInv(st: State, step: Step)
    requires Inv(st) && Enabled(st, step)
    ensures Inv(Apply(st, step))
  {
    if step.Does? {
      ActInv(st, step.t, step.act);
    } else {
      var st' := Apply(st, step);
      forall u: nat {:trigger Living(st', u)} | Living(st', u)
        ensures !st'.threads[u].pc.Idle? ==> st'.mutexes[st'.threads[u].tree] == Some(u)
        ensures HoldsByte(st'.threads[u].pc) ==> st'.byte == Some(st'.threads[u].tree)
        ensures st'.threads[u].pc.Mutating? ==> st'.word == Names(Slot(st', u), u)
        ensures st'.threads[u].pc.Observed? ==> st'.word.Names? && st'.word.slot == st'.threads[u].pc.slot
      {
        assert Living(st, u);
      }
      assert st'.word.Names? ==> (Living(st', st'.word.setter) ==> Living(st, st'.word.setter));
    }
  }

  lemma {:induction false} ExecInv(st: State, steps: seq<Step>)
    requires Inv(st) && Exec(st, steps).Some?
    ensures Inv(Exec(st, steps).value)
    decreases |steps|
  {
    if steps != [] {
      StepInv(st, steps[0]);
      ExecInv(Apply(st, steps[0]), steps[1..]);
    }
  }

  // ---------------------------------------------------------------------------------------------
  // Main results
  // ---------------------------------------------------------------------------------------------

  /**
   Mutation exclusion, in every run over any trees and threads, whatever the predicate about processes
   answers and whoever dies where: a living thread between taking both locks and releasing the first is
   the only one, its tree's description holds the byte, and the word is the one it stored.
   */
  lemma {:induction false} OneMutator(init: State, steps: seq<Step>, t: nat)
    requires Init(init) && init.useMutex && Exec(init, steps).Some?
    requires var st := Exec(init, steps).value; Living(st, t) && st.threads[t].pc.Mutating?
    ensures var st := Exec(init, steps).value;
            && st.byte == Some(st.threads[t].tree) && st.word == Names(Slot(st, t), t)
            && forall u: nat {:trigger Living(st, u)} :: Living(st, u) && HoldsByte(st.threads[u].pc) ==> u == t
  {
    InitInv(init);
    ExecInv(init, steps);
  }

  /** A word that a living thread stored means that its tree's description holds the byte. */
  lemma {:induction false} ALivingNameHoldsTheByte(init: State, steps: seq<Step>)
    requires Init(init) && init.useMutex && Exec(init, steps).Some?
    requires var st := Exec(init, steps).value; st.word.Names? && Living(st, st.word.setter)
    ensures var st := Exec(init, steps).value; st.byte == Some(st.threads[st.word.setter].tree)
  {
    InitInv(init);
    ExecInv(init, steps);
  }

  /** So whoever holds the byte and sees a word may take it: its holder is dead. */
  lemma {:induction false} AStealTakesFromTheDead(init: State, steps: seq<Step>, t: nat)
    requires Init(init) && init.useMutex && Exec(init, steps).Some?
    requires var st := Exec(init, steps).value;
             Living(st, t) && (st.threads[t].pc.ByteHeld? || st.threads[t].pc.Observed?) && st.word.Names?
    ensures var st := Exec(init, steps).value;
            st.word.setter < |st.threads| && !Living(st, st.word.setter)
  {
    InitInv(init);
    ExecInv(init, steps);
    var st := Exec(init, steps).value;
    if Living(st, st.word.setter) {
      OneHolder(st, t, st.word.setter);
    }
  }

  /** What follows a spin that ran out: the own slot is refused first, and then the predicate has its say. */
  function Decide(st: State, t: nat, gone: bool): Act
    requires Living(st, t) && st.threads[t].pc.Observed?
  {
    if gone && st.threads[t].pc.slot != Slot(st, t) then Steal else DropByte
  }

  /**
   Of the words that a byte holder comes upon, all of them dead threads', it takes exactly those that
   name another slot of which the predicate says that its participant is gone; and when it goes for one,
   its compare-exchange does not fail. So a slot that has been granted again is what keeps a dead
   thread's word: its holder reads as alive, or as the caller.
   */
  lemma {:induction false} AByteHolderTakesExactlyWhen(init: State, steps: seq<Step>, t: nat, gone: bool)
    requires Init(init) && init.useMutex && Exec(init, steps).Some?
    requires var st := Exec(init, steps).value; Living(st, t) && st.threads[t].pc.Observed?
    ensures var st := Exec(init, steps).value;
            && st.word.Names? && st.word.slot == st.threads[t].pc.slot
            && st.word.setter < |st.threads| && !Living(st, st.word.setter)
            && Enabled(st, Does(t, Decide(st, t, gone)))
            && var next := Apply(st, Does(t, Decide(st, t, gone)));
               && (next.threads[t].pc.Mutating? <==> MayTake(st.word.slot + 1, Slot(st, t), !gone))
               && next.word == if next.threads[t].pc.Mutating? then Names(Slot(st, t), t) else st.word
  {
    InitInv(init);
    ExecInv(init, steps);
    AStealTakesFromTheDead(init, steps, t);
  }

  /** The word in the arena is free, or names another slot whose participant is not alive. */
  predicate MayTake(owner: nat, slot: nat, alive: bool) {
    owner == 0 || (owner - 1 != slot && !alive)
  }

  // ---------------------------------------------------------------------------------------------
  // The two acquisitions, each as one uninterrupted call
  // ---------------------------------------------------------------------------------------------

  datatype Attempt = Acquired | Contended | Failed(errno: int)
  datatype Lease = Taken | LockContended | LeaseError(errno: int)

  const TOPO_BYTE_ATTEMPTS: nat := 32
  const TOPO_LOCK_SPIN_LIMIT: nat := 1024

  /** Asks for the byte at most 32 times, and no more often than it takes to get an answer. */
  method TakeTopologyLease(kernel: seq<Attempt>) returns (lease: Lease, asked: nat)
    requires |kernel| >= 32
    ensures asked <= 32
    ensures forall i :: 0 <= i < asked - 1 ==> kernel[i] == Contended
    ensures lease == LockContended ==> asked == 32 && kernel[asked - 1] == Contended
    ensures lease == Taken ==> asked > 0 && kernel[asked - 1] == Acquired
    ensures lease.LeaseError? ==> asked > 0 && kernel[asked - 1] == Failed(lease.errno)
  {
    asked := 0;
    while asked < TOPO_BYTE_ATTEMPTS
      invariant asked <= TOPO_BYTE_ATTEMPTS
      invariant forall i :: 0 <= i < asked ==> kernel[i] == Contended
    {
      asked := asked + 1;
      match kernel[asked - 1]
      case Acquired => return Taken, asked;
      case Failed(errno) => return LeaseError(errno), asked;
      case Contended =>
    }
    return LockContended, asked;
  }

  /** The word in the arena: `0` is free, else `slot + 1`. */
  class TopoLock {
    var owner: nat

    constructor (owner: nat)
      ensures this.owner == owner
    {
      this.owner := owner;
    }

    /**
     Under the byte nobody alive moves the word meanwhile, so the call is taken, and the word with it,
     exactly when the word is free or names another slot that the predicate calls dead. A dead holder's
     slot that has a new tenant, the caller or anybody alive, is never taken: the word says no more
     than the slot.
     */
    method Acquire(slot: nat, isAlive: nat -> bool) returns (ok: bool)
      modifies this
      ensures ok <==> MayTake(old(owner), slot, old(owner) > 0 && isAlive(old(owner) - 1))
      ensures owner == if ok then slot + 1 else old(owner)
    {
      var i := 0;
      while i < TOPO_LOCK_SPIN_LIMIT
        invariant i <= TOPO_LOCK_SPIN_LIMIT && owner == old(owner)
        invariant i > 0 ==> owner != 0
      {
        if owner == 0 {
          owner := slot + 1;
          return true;
        }
        i := i + 1;
      }
      var held := owner;
      if held - 1 == slot || isAlive(held - 1) {
        return false;
      }
      owner := slot + 1;
      return true;
    }

    method Drop(slot: nat)
      modifies this
      ensures owner == if old(owner) == slot + 1 then 0 else old(owner)
    {
      if owner == slot + 1 {
        owner := 0;
      }
    }

    /** A mutation, from the acquisition to the end of the guard's scope. */
    method Guarded(slot: nat, isAlive: nat -> bool) returns (ok: bool)
      modifies this
      ensures ok <==> MayTake(old(owner), slot, old(owner) > 0 && isAlive(old(owner) - 1))
      ensures owner == if ok then 0 else old(owner)
    {
      ok := Acquire(slot, isAlive);
      if ok {
        Drop(slot);
      }
    }
  }
}
