/**
 Edge claims: a two-phase acquire against concurrent reapers, over one edge.

 Claiming swaps the owner word `0 -> CLAIMING`, draws an epoch, stores its packed owner word, takes
 the edge's lease byte and re-checks the epoch. Reaping loads the owner word, probes the lease byte,
 draws an epoch and stores `0`. Neither store of the owner word is conditional. A tree holds its
 leases, and probes others', on one open file description, which all of its threads share and which
 does not see its own lock.
 */
module Claims {
  import opened Options

  datatype Owner = Vacant | Claiming | Owned(epoch: nat, slot: nat)

  /** The lease byte; `taker` is the thread that took it last, which the kernel does not know. */
  datatype Lease = Unheld | Held(tree: nat, taker: nat)

  datatype Pc =
    | Idle
    | Swapped
    | Numbered(epoch: nat)
    | Stored(epoch: nat)
    | Leased(epoch: nat)
    | Writing(epoch: nat, okAt: nat)   // `claim` returned Ok: a writer not dropped yet
    | Pushing(epoch: nat, okAt: nat)   // its push passed the epoch check
    | Refused(epoch: nat)              // no lease: the record comes next
    | Outrun(epoch: nat)               // the re-check failed: the record, then the byte
    | Unleasing(epoch: nat)
    | Loaded(word: Owner, at: nat)
    | Probed(word: Owner, at: nat)
    | Bumped(word: Owner, at: nat)

  datatype Tree = Tree(slot: nat, alive: bool)

  datatype Thread = Thread(tree: nat, pc: Pc)

  /** `solo`: a tree has at most one claim attempt or undropped writer of the edge at a time. */
  datatype State = State(
    solo: bool, clock: nat,
    owner: Owner, epoch: nat, lease: Lease,
    trees: seq<Tree>, threads: seq<Thread>)

  datatype Act =
    | Swap | Number | Store
    | TakeLease(answered: bool)
    | Check | Release | Unlease
    | Push | PushDone
    | Load
    | Probe(answered: bool)
    | Bump | Clear

  datatype Step = Does(t: nat, act: Act) | Die(d: nat) | KernelUnlocks(d: nat)

  /** In a claim, or holding a writer. */
  predicate Busy(pc: Pc) {
    !pc.Idle? && !pc.Loaded? && !pc.Probed? && !pc.Bumped?
  }

  predicate IsWriter(pc: Pc) {
    pc.Writing? || pc.Pushing?
  }

  predicate HasEpoch(pc: Pc) {
    Busy(pc) && !pc.Swapped?
  }

  predicate Thrd(st: State, t: nat) {
    t < |st.threads| && st.threads[t].tree < |st.trees|
  }

  predicate Living(st: State, t: nat) {
    Thrd(st, t) && st.trees[st.threads[t].tree].alive
  }

  function Slot(st: State, t: nat): nat
    requires Thrd(st, t)
  {
    st.trees[st.threads[t].tree].slot
  }

  function Pcd(st: State, t: nat, pc: Pc): State
    requires t < |st.threads|
  {
    st.(threads := st.threads[t := st.threads[t].(pc := pc)])
  }

  /** `compare_exchange(owner, 0)`. */
  function Released(st: State, owner: Owner): State {
    if st.owner == owner then st.(owner := Vacant) else st
  }

  /** What an unlock by `tree`'s description does to the byte, whoever of its threads took it. */
  function Unlocked(st: State, tree: nat): State {
    if st.lease.Held? && st.lease.tree == tree then st.(lease := Unheld) else st
  }

  /** A reaper of `slot` goes on with this owner word: it is not free, and does not name the slot. */
  predicate Foreign(word: Owner, slot: nat) {
    word != Vacant && !(word.Owned? && word.slot == slot)
  }

  ghost predicate SiblingBusy(st: State, t: nat) {
    t < |st.threads| &&
    exists u :: 0 <= u < |st.threads| && u != t && st.threads[u].tree == st.threads[t].tree && Busy(st.threads[u].pc)
  }

  ghost predicate ActEnabled(st: State, t: nat, act: Act) {
    Living(st, t) &&
    var pc := st.threads[t].pc;
    match act
    case Swap => pc.Idle? && st.owner == Vacant && (st.solo ==> !SiblingBusy(st, t))
    case Number => pc.Swapped?
    case Store => pc.Numbered?
    case TakeLease(_) => pc.Stored?
    case Check => pc.Leased?
    case Release => pc.Refused? || pc.Outrun? || pc.Writing?
    case Unlease => pc.Unleasing?
    case Push => pc.Writing?
    case PushDone => pc.Pushing?
    case Load => pc.Idle? && Foreign(st.owner, Slot(st, t))
    case Probe(_) => pc.Loaded?
    case Bump => pc.Probed?
    case Clear => pc.Bumped?
  }

  ghost predicate Enabled(st: State, step: Step) {
    match step
    case Does(t, act) => ActEnabled(st, t, act)
    case Die(d) => d < |st.trees| && st.trees[d].alive
    case KernelUnlocks(d) => d < |st.trees| && !st.trees[d].alive
  }

  ghost function Acted(st: State, t: nat, act: Act): State
    requires ActEnabled(st, t, act)
  {
    var pc := st.threads[t].pc;
    var tree := st.threads[t].tree;
    match act
    case Swap => Pcd(st, t, Swapped).(owner := Claiming)
    case Number => Pcd(st, t, Numbered(st.epoch + 1)).(epoch := st.epoch + 1)
    case Store => Pcd(st, t, Stored(pc.epoch)).(owner := Owned(pc.epoch, Slot(st, t)))
    case TakeLease(answered) =>
      if answered && (st.lease.Unheld? || st.lease.tree == tree)
      then Pcd(st, t, Leased(pc.epoch)).(lease := Held(tree, t))
      else Pcd(st, t, Refused(pc.epoch))
    case Check => Pcd(st, t, if st.epoch == pc.epoch then Writing(pc.epoch, st.clock) else Outrun(pc.epoch))
    case Release =>
      Released(Pcd(st, t, if pc.Refused? then Idle else Unleasing(pc.epoch)), Owned(pc.epoch, Slot(st, t)))
    case Unlease => Unlocked(Pcd(st, t, Idle), tree)
    case Push => if st.epoch == pc.epoch then Pcd(st, t, Pushing(pc.epoch, pc.okAt)) else st
    case PushDone => Pcd(st, t, Writing(pc.epoch, pc.okAt))
    case Load => Pcd(st, t, Loaded(st.owner, st.clock))
    case Probe(answered) =>
      // The description does not see its own lock; no answer reads as held.
      Pcd(st, t, if answered && (st.lease.Unheld? || st.lease.tree == tree) then Probed(pc.word, pc.at) else Idle)
    case Bump => Pcd(st, t, Bumped(pc.word, pc.at)).(epoch := st.epoch + 1)
    case Clear => Pcd(st, t, Idle).(owner := Vacant)
  }

  ghost function Apply(st: State, step: Step): (st': State)
    requires Enabled(st, step)
  {
    var next :=
      match step
      case Does(t, act) => Acted(st, t, act)
      case Die(d) => st.(trees := st.trees[d := st.trees[d].(alive := false)])
      case KernelUnlocks(d) => Unlocked(st, d);
    next.(clock := st.clock + 1)
  }

  ghost function Exec(st: State, steps: seq<Step>): Option<State>
    decreases |steps|
  {
    if steps == [] then Some(st)
    else if Enabled(st, steps[0]) then Exec(Apply(st, steps[0]), steps[1..])
    else None
  }

  /** An unclaimed edge; any trees, alive, each with any number of threads. */
  ghost predicate Init(st: State) {
    && st.owner == Vacant && st.lease == Unheld
    && (forall d :: 0 <= d < |st.trees| ==> st.trees[d].alive)
    && (forall t :: 0 <= t < |st.threads| ==> st.threads[t].tree < |st.trees| && st.threads[t].pc == Idle)
  }

  // ---------------------------------------------------------------------------------------------
  // What every run keeps
  // ---------------------------------------------------------------------------------------------

  /** Thread `t` drew epoch `e` and has not come to the end of its claim. */
  predicate Drew(st: State, t: nat, e: nat) {
    t < |st.threads| && HasEpoch(st.threads[t].pc) && st.threads[t].pc.epoch == e
  }

  ghost predicate Epochs(st: State) {
    && (forall t :: 0 <= t < |st.threads| ==> st.threads[t].tree < |st.trees|)
    && (forall t: nat, e: nat {:trigger Drew(st, t, e)} :: Drew(st, t, e) ==> e <= st.epoch)
    && (forall t: nat, u: nat, e: nat {:trigger Drew(st, t, e), Drew(st, u, e)} ::
          Drew(st, t, e) && Drew(st, u, e) ==> t == u)
  }

  /** The owner word is of a drawn epoch, and a thread that drew it knows whether it is there. */
  ghost predicate Words(st: State) {
    st.owner.Owned? ==>
      && st.owner.epoch <= st.epoch
      && forall t: nat {:trigger Drew(st, t, st.owner.epoch)} :: Drew(st, t, st.owner.epoch)
           ==> Thrd(st, t) && st.owner.slot == Slot(st, t)
               && !st.threads[t].pc.Numbered? && !st.threads[t].pc.Unleasing?
  }

  ghost predicate Inv(st: State) {
    Epochs(st) && Words(st)
  }

  /** Nobody but the thread that acts changes, and it has the epoch it had, or the next one. */
  lemma {:induction false} StepDrew(st: State, step: Step, t: nat, e: nat)
    requires Enabled(st, step) && Drew(Apply(st, step), t, e)
    ensures Drew(st, t, e) || (step == Does(t, Number) && e == st.epoch + 1)
  {
  }

  lemma {:induction false} StepEpochs(st: State, step: Step)
    requires Inv(st) && Enabled(st, step)
    ensures Epochs(Apply(st, step))
  {
    var st' := Apply(st, step);
    forall t: nat, e: nat {:trigger Drew(st', t, e)} | Drew(st', t, e)
      ensures e <= st'.epoch
    {
      StepDrew(st, step, t, e);
    }
    forall t: nat, u: nat, e: nat {:trigger Drew(st', t, e), Drew(st', u, e)} | Drew(st', t, e) && Drew(st', u, e)
      ensures t == u
    {
      StepDrew(st, step, t, e);
      StepDrew(st, step, u, e);
    }
  }

  lemma {:induction false} StepWords(st: State, step: Step)
    requires Inv(st) && Enabled(st, step)
    ensures Words(Apply(st, step))
  {
    var st' := Apply(st, step);
    if st'.owner.Owned? {
      if step.Does? && step.act.Store? {
        assert Drew(st, step.t, st'.owner.epoch);
      }
      forall t: nat {:trigger Drew(st', t, st'.owner.epoch)} | Drew(st', t, st'.owner.epoch)
        ensures Thrd(st', t) && st'.owner.slot == Slot(st', t)
        ensures !st'.threads[t].pc.Numbered? && !st'.threads[t].pc.Unleasing?
      {
        StepDrew(st, step, t, st'.owner.epoch);
      }
    }
  }

  lemma {:induction false} StepInv(st: State, step: Step)
    requires Inv(st) && Enabled(st, step)
    ensures Inv(Apply(st, step))
  {
    StepEpochs(st, step);
    StepWords(st, step);
  }

  lemma {:induction false} ExecInv(st: State, steps: seq<Step>)
    requires Inv(st) && Exec(st, steps).Some?
    ensures Inv(Exec(st, steps).value)
    decreases |steps|
  {
    if steps != [] {
      StepInv(st, steps[0]);
      ExecInv(Apply(st, steps[0]), steps[1..]);
    }
  }

  /**
   Claim exclusivity, in every run, however many threads of however many trees claim and reap: of all
   undropped writers, at most one has the epoch the record carries. So at most one passes a push's check.
   */
  lemma {:induction false} OneCurrentWriter(init: State, steps: seq<Step>, t: nat, u: nat)
    requires Init(init) && Exec(init, steps).Some?
    requires var st := Exec(init, steps).value;
             && t < |st.threads| && IsWriter(st.threads[t].pc) && st.threads[t].pc.epoch == st.epoch
             && u < |st.threads| && IsWriter(st.threads[u].pc) && st.threads[u].pc.epoch == st.epoch
    ensures t == u
  {
    ExecInv(init, steps);
    var st := Exec(init, steps).value;
    assert Drew(st, t, st.epoch) && Drew(st, u, st.epoch);
  }

  /** The step draws an epoch. */
  predicate Draws(step: Step) {
    step.Does? && (step.act.Bump? || step.act.Number?)
  }

  function DrawsIn(steps: seq<Step>): nat {
    if steps == [] then 0 else (if Draws(steps[0]) then 1 else 0) + DrawsIn(steps[1..])
  }

  lemma {:induction false} EpochCountsDraws(st: State, steps: seq<Step>)
    requires Exec(st, steps).Some?
    ensures Exec(st, steps).value.epoch == st.epoch + DrawsIn(steps)
    decreases |steps|
  {
    if steps != [] {
      EpochCountsDraws(Apply(st, steps[0]), steps[1..]);
    }
  }

  lemma {:induction false} NoDrawsExactlyWhen(steps: seq<Step>)
    ensures DrawsIn(steps) == 0 <==> forall i :: 0 <= i < |steps| ==> !Draws(steps[i])
    decreases |steps|
  {
    if steps != [] {
      NoDrawsExactlyWhen(steps[1..]);
      assert forall i :: 0 <= i < |steps[1..]| ==> steps[1..][i] == steps[i + 1];
      assert (forall i :: 0 <= i < |steps| ==> !Draws(steps[i]))
        <==> !Draws(steps[0]) && forall i :: 0 <= i < |steps[1..]| ==> !Draws(steps[1..][i]);
    }
  }
}
