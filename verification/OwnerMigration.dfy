/**
 The owner role: whoever holds the lock file's byte 0 serves the rendezvous. It is taken by the process
 that creates the arena, inherited by a survivor through `inherit_ownership`, and given up by teardown
 or by death. A tree parks what keeps it attached in a mutex-guarded cell; `inherit_ownership` takes it
 out, tries for the role and puts it back, and any number of its calls may be in flight.
 */
module OwnerMigration {
  import opened Options

  datatype Attachment = Joined | Owner

  /** Dropping an attachment: the server stops, then the session closes. */
  datatype Dropping = Kept | Stopping | Closing

  datatype Tree = Tree(
    alive: bool,
    writable: bool,
    opening: bool,                // a fresh `open()` in passing, with byte 0 in hand
    cell: Option<Attachment>,     // what `take_attachment` would return
    owner: bool,                  // the session's own record of holding byte 0
    stuck: bool,                  // it failed to bind, and then failed to release byte 0
    slotByte: bool,               // the session holds the participant byte
    serving: bool,
    dropping: Dropping)

  /** `FailedKeeping`: the error of a bind after which byte 0 could not be released either. */
  datatype Outcome = Inherited | OwnerAlive | Contended | ReadOnly | NotApplicable | Failed | FailedKeeping

  datatype Pc =
    | Idle
    | Begun
    | SawJoined
    | SawLost
    | SawWritable
    | InHand                                          // the joined attachment, out of its cell
    | Won                                             // byte 0 taken
    | BindFailed
    | Putting(what: Option<Attachment>, outcome: Outcome)
    | Returned(outcome: Outcome)

  /** `before` is what the cell held when the call began. */
  datatype Call = Call(tree: nat, pc: Pc, before: Option<Attachment>)

  /**
   `single`: a tree has at most one call in flight. `sessionFirst`: the drop order the code rejects.
   */
  datatype State = State(single: bool, sessionFirst: bool, byte0: Option<nat>, trees: seq<Tree>, calls: seq<Call>)

  datatype TreeAct =
    | Join
    | OpenTake
    | OpenYield
    | OpenServe
    | Teardown
    | DropOn
    | Die
    | KernelDrops

  datatype CallAct =
    | Begin
    | IsJoined
    | OwnerLost(hungUp: bool)
    | IsWritable
    | Take
    | TakeOver(answered: bool)
    | Spawn(ok: bool)
    | GiveBack(released: bool)
    | Put

  datatype Step = OnTree(d: nat, tree: TreeAct) | OnCall(c: nat, call: CallAct)

  /** The call is between its first and its last action. */
  predicate InFlight(pc: Pc) {
    !pc.Idle? && !pc.Returned?
  }

  /** The call carries its tree's session. */
  predicate Carries(pc: Pc) {
    pc.InHand? || pc.Won? || pc.BindFailed? || (pc.Putting? && pc.what.Some?)
  }

  function Treed(st: State, d: nat, tree: Tree): State
    requires d < |st.trees|
  {
    st.(trees := st.trees[d := tree])
  }

  function Pcd(st: State, c: nat, pc: Pc): State
    requires c < |st.calls|
  {
    st.(calls := st.calls[c := st.calls[c].(pc := pc)])
  }

  function Freed(st: State, d: nat): State {
    if st.byte0 == Some(d) then st.(byte0 := None) else st
  }

  predicate Quiet(st: State, d: nat) {
    forall c :: 0 <= c < |st.calls| && st.calls[c].tree == d ==> !InFlight(st.calls[c].pc)
  }

  predicate Blank(tree: Tree) {
    tree.cell == None && !tree.opening && !tree.owner && !tree.stuck && !tree.slotByte && !tree.serving
    && tree.dropping == Kept
  }

  predicate TreeEnabled(st: State, d: nat, act: TreeAct) {
    d < |st.trees| &&
    var tree := st.trees[d];
    match act
    case Join => tree.alive && Blank(tree) && Quiet(st, d)
    case OpenTake => tree.alive && Blank(tree) && Quiet(st, d) && st.byte0 == None
    case OpenYield => tree.alive && tree.opening
    case OpenServe => tree.alive && tree.opening
    // The tree's own drop: it borrows the tree exclusively, so no call is in flight.
    case Teardown => tree.alive && tree.cell.Some? && Quiet(st, d)
    case DropOn => tree.alive && tree.dropping != Kept
    case Die => tree.alive
    case KernelDrops => !tree.alive && st.byte0 == Some(d)
  }

  predicate CallEnabled(st: State, c: nat, act: CallAct) {
    c < |st.calls| && st.calls[c].tree < |st.trees| && st.trees[st.calls[c].tree].alive &&
    var pc := st.calls[c].pc;
    match act
    case Begin => !InFlight(pc) && (st.single ==> Quiet(st, st.calls[c].tree))
    case IsJoined => pc.Begun?
    case OwnerLost(_) => pc.SawJoined?
    case IsWritable => pc.SawLost?
    case Take => pc.SawWritable?
    case TakeOver(_) => pc.InHand?
    case Spawn(_) => pc.Won?
    case GiveBack(_) => pc.BindFailed?
    case Put => pc.Putting?
  }

  predicate Enabled(st: State, step: Step) {
    match step
    case OnTree(d, act) => TreeEnabled(st, d, act)
    case OnCall(c, act) => CallEnabled(st, c, act)
  }

  /** One stage of dropping the attachment of tree `d`, in the order the fields are declared. */
  function Dropped(st: State, d: nat): State
    requires d < |st.trees|
  {
    var tree := st.trees[d];
    var next := if tree.dropping.Stopping? then Closing else Kept;
    if tree.dropping.Stopping? == st.sessionFirst
    then Freed(Treed(st, d, tree.(owner := false, stuck := false, slotByte := false, dropping := next)), d)
    else Treed(st, d, tree.(serving := false, dropping := next))
  }

  function TreeApplied(st: State, d: nat, act: TreeAct): State
    requires TreeEnabled(st, d, act)
  {
    var tree := st.trees[d];
    match act
    case Join => Treed(st, d, tree.(cell := Some(Joined), slotByte := true))
    case OpenTake => Treed(st, d, tree.(opening := true, owner := true)).(byte0 := Some(d))
    case OpenYield => Freed(Treed(st, d, tree.(opening := false, owner := false)), d)
    case OpenServe => Treed(st, d, tree.(opening := false, cell := Some(Owner), slotByte := true, serving := true))
    case Teardown => Treed(st, d, tree.(cell := None, dropping := Stopping))
    case DropOn => Dropped(st, d)
    case Die => Treed(st, d, tree.(alive := false, serving := false))
    case KernelDrops => st.(byte0 := None)
  }

  /** `*attachment = what`: what was in the cell is dropped. */
  function PutIn(st: State, d: nat, what: Option<Attachment>): State
    requires d < |st.trees|
  {
    var tree := st.trees[d];
    Treed(st, d, tree.(cell := what, dropping := if tree.cell.Some? then Stopping else tree.dropping))
  }

  function CallApplied(st: State, c: nat, act: CallAct): State
    requires CallEnabled(st, c, act)
  {
    var pc := st.calls[c].pc;
    var d := st.calls[c].tree;
    var tree := st.trees[d];
    match act
    case Begin => st.(calls := st.calls[c := Call(d, Begun, tree.cell)])
    case IsJoined => Pcd(st, c, if tree.cell == Some(Joined) then SawJoined else Returned(NotApplicable))
    case OwnerLost(hungUp) =>
      // A hangup alone is not enough: somebody else may hold the role.
      Pcd(st, c, if tree.cell == Some(Joined) && hungUp && (st.byte0 == None || st.byte0 == Some(d)) then SawLost
                 else Returned(OwnerAlive))
    case IsWritable => Pcd(st, c, if tree.writable then SawWritable else Returned(ReadOnly))
    case Take =>
      var taken := Treed(st, d, tree.(cell := None));
      if tree.cell == Some(Joined) then Pcd(taken, c, InHand) else Pcd(taken, c, Putting(tree.cell, NotApplicable))
    case TakeOver(answered) =>
      if tree.owner then Pcd(st, c, Won)
      else if !answered then Pcd(st, c, Putting(Some(Joined), Failed))
      else if st.byte0 == None then Pcd(Treed(st, d, tree.(owner := true)), c, Won).(byte0 := Some(d))
      else Pcd(st, c, Putting(Some(Joined), Contended))
    case Spawn(ok) =>
      if ok then Pcd(Treed(st, d, tree.(serving := true, stuck := false)), c, Putting(Some(Owner), Inherited))
      else Pcd(st, c, BindFailed)
    case GiveBack(released) =>
      if released
      then Freed(Pcd(Treed(st, d, tree.(owner := false, stuck := false)), c, Putting(Some(Joined), Failed)), d)
      else Pcd(Treed(st, d, tree.(stuck := true)), c, Putting(Some(Joined), FailedKeeping))
    case Put => Pcd(PutIn(st, d, pc.what), c, Returned(pc.outcome))
  }

  function Apply(st: State, step: Step): State
    requires Enabled(st, step)
  {
    match step
    case OnTree(d, act) => TreeApplied(st, d, act)
    case OnCall(c, act) => CallApplied(st, c, act)
  }

  function Exec(st: State, steps: seq<Step>): Option<State>
    decreases |steps|
  {
    if steps == [] then Some(st)
    else if Enabled(st, steps[0]) then Exec(Apply(st, steps[0]), steps[1..])
    else None
  }

  /** Any processes, none attached yet, each with any number of threads that may call. */
  ghost predicate Init(st: State) {
    && st.byte0 == None
    && (forall d :: 0 <= d < |st.trees| ==> st.trees[d].alive && Blank(st.trees[d]))
    && (forall c :: 0 <= c < |st.calls| ==> st.calls[c].tree < |st.trees| && st.calls[c].pc == Idle)
  }

  // ---------------------------------------------------------------------------------------------
  // What every run keeps, however many calls a tree has in flight
  // ---------------------------------------------------------------------------------------------

  /** Call `c` carries the session of tree `d`. */
  predicate CarriesOf(st: State, c: nat, d: nat) {
    c < |st.calls| && st.calls[c].tree == d && Carries(st.calls[c].pc)
  }

  /** Who serves, owns; who owns and lives, holds byte 0. */
  predicate TreeOk(tree: Tree, d: nat, byte0: Option<nat>) {
    && (tree.alive && tree.owner ==> byte0 == Some(d))
    && (byte0 == Some(d) ==> tree.owner)
    && (tree.serving ==> tree.alive && tree.owner && !tree.stuck && tree.slotByte && tree.cell != Some(Joined))
    && (tree.cell == Some(Joined) ==> (tree.owner <==> tree.stuck))
    && (tree.stuck ==> tree.owner)
    && (tree.cell.Some? ==> tree.dropping == Kept && !tree.opening && tree.slotByte)
    && (tree.opening ==> tree.dropping == Kept && !tree.slotByte && tree.owner && !tree.stuck)
    && (tree.dropping == Closing ==> !tree.serving)
  }

  /** What a call that carries the session knows of its tree. */
  predicate HandOk(pc: Pc, tree: Tree) {
    Carries(pc) ==>
      && tree.cell == None && tree.dropping == Kept && !tree.opening && tree.slotByte
      && (match pc
          case InHand => (tree.owner <==> tree.stuck) && !tree.serving
          case Won => tree.owner && !tree.serving
          case BindFailed => tree.owner && !tree.serving
          case Putting(what, _) => what == Some(Joined) ==> (tree.owner <==> tree.stuck) && !tree.serving
          case _ => true)
  }

  /** At most one call carries a tree's session, and it knows where the tree stands. */
  ghost predicate Inv(st: State) {
    && !st.sessionFirst
    && (forall d {:trigger st.trees[d]} :: 0 <= d < |st.trees| ==> TreeOk(st.trees[d], d, st.byte0))
    && (forall c {:trigger st.calls[c]} :: 0 <= c < |st.calls| ==>
          st.calls[c].tree < |st.trees| && HandOk(st.calls[c].pc, st.trees[st.calls[c].tree]))
    && (forall c: nat, e: nat, d: nat {:trigger CarriesOf(st, c, d), CarriesOf(st, e, d)} ::
          CarriesOf(st, c, d) && CarriesOf(st, e, d) ==> c == e)
  }

  lemma {:induction false} InitInv(st: State)
    requires Init(st) && !st.sessionFirst
    ensures Inv(st)
  {
  }

  lemma {:induction false} TreeOwn(st: State, d: nat, act: TreeAct)
    requires TreeEnabled(st, d, act) && TreeOk(st.trees[d], d, st.byte0) && !st.sessionFirst
    ensures d < |TreeApplied(st, d, act).trees|
    ensures TreeOk(TreeApplied(st, d, act).trees[d], d, TreeApplied(st, d, act).byte0)
  {
  }

  /** A call's hands are as its tree's own acts leave them. */
  lemma {:induction false} TreeHands(st: State, d: nat, act: TreeAct, c: nat)
    requires TreeEnabled(st, d, act) && !st.sessionFirst && TreeOk(st.trees[d], d, st.byte0)
    requires c < |st.calls| && st.calls[c].tree < |st.trees| && HandOk(st.calls[c].pc, st.trees[st.calls[c].tree])
    ensures var st' := TreeApplied(st, d, act);
            st'.calls == st.calls && st.calls[c].tree < |st'.trees|
            && HandOk(st.calls[c].pc, st'.trees[st.calls[c].tree])
  {
    assert Carries(st.calls[c].pc) ==> InFlight(st.calls[c].pc);
  }

  lemma {:induction false} TreeInv(st: State, d: nat, act: TreeAct)
    requires Inv(st) && TreeEnabled(st, d, act)
    ensures Inv(TreeApplied(st, d, act))
  {
    var st' := TreeApplied(st, d, act);
    assert st'.calls == st.calls;
    assert forall c: nat, e: nat {:trigger CarriesOf(st', c, e)} :: CarriesOf(st', c, e) ==> CarriesOf(st, c, e);
    TreeOwn(st, d, act);
    forall c {:trigger st'.calls[c]} | 0 <= c < |st'.calls|
      ensures st'.calls[c].tree < |st'.trees| && HandOk(st'.calls[c].pc, st'.trees[st'.calls[c].tree])
    {
      TreeHands(st, d, act, c);
    }
  }

  /** An act that only looks. */
  predicate Looks(act: CallAct) {
    act.Begin? || act.IsJoined? || act.OwnerLost? || act.IsWritable?
  }

  /** What the call that acts leaves of itself and of its tree. */
  predicate OwnOk(st: State, st': State, c: nat)
    requires c < |st.calls| && st.calls[c].tree < |st.trees|
  {
    var d := st.calls[c].tree;
    && c < |st'.calls| && st'.calls[c].tree == d < |st'.trees|
    && TreeOk(st'.trees[d], d, st'.byte0) && HandOk(st'.calls[c].pc, st'.trees[d])
    && (Carries(st'.calls[c].pc) && !Carries(st.calls[c].pc) ==> st.trees[d].cell.Some?)
  }

  lemma {:induction false} LookOwn(st: State, c: nat, act: CallAct)
    requires CallEnabled(st, c, act) && Looks(act)
    requires HandOk(st.calls[c].pc, st.trees[st.calls[c].tree])
    requires TreeOk(st.trees[st.calls[c].tree], st.calls[c].tree, st.byte0)
    ensures OwnOk(st, CallApplied(st, c, act), c)
  {
  }

  lemma {:induction false} TakeOwn(st: State, c: nat, act: CallAct)
    requires CallEnabled(st, c, act) && (act.Take? || act.TakeOver?)
    requires HandOk(st.calls[c].pc, st.trees[st.calls[c].tree])
    requires TreeOk(st.trees[st.calls[c].tree], st.calls[c].tree, st.byte0)
    ensures OwnOk(st, CallApplied(st, c, act), c)
  {
  }

  lemma {:induction false} SpawnOwn(st: State, c: nat, act: CallAct)
    requires CallEnabled(st, c, act) && (act.Spawn? || act.GiveBack?)
    requires HandOk(st.calls[c].pc, st.trees[st.calls[c].tree])
    requires TreeOk(st.trees[st.calls[c].tree], st.calls[c].tree, st.byte0)
    ensures OwnOk(st, CallApplied(st, c, act), c)
  {
  }

  lemma {:induction false} PutOwn(st: State, c: nat)
    requires CallEnabled(st, c, Put)
    requires HandOk(st.calls[c].pc, st.trees[st.calls[c].tree])
    requires TreeOk(st.trees[st.calls[c].tree], st.calls[c].tree, st.byte0)
    ensures OwnOk(st, CallApplied(st, c, Put), c)
  {
  }

  /** The call that acts, and its tree. */
  lemma {:induction false} CallOwn(st: State, c: nat, act: CallAct)
    requires CallEnabled(st, c, act)
    requires HandOk(st.calls[c].pc, st.trees[st.calls[c].tree])
    requires TreeOk(st.trees[st.calls[c].tree], st.calls[c].tree, st.byte0)
    ensures OwnOk(st, CallApplied(st, c, act), c)
  {
    if Looks(act) {
      LookOwn(st, c, act);
    } else if act.Take? || act.TakeOver? {
      TakeOwn(st, c, act);
    } else if act.Spawn? || act.GiveBack? {
      SpawnOwn(st, c, act);
    } else {
      PutOwn(st, c);
    }
  }

  /** Two calls never carry one tree's session. */
  lemma {:induction false} CallCarries(st: State, c: nat, act: CallAct)
    requires Inv(st) && CallEnabled(st, c, act)
    ensures var st' := CallApplied(st, c, act);
            forall e: nat, f: nat, d: nat {:trigger CarriesOf(st', e, d), CarriesOf(st', f, d)} ::
              CarriesOf(st', e, d) && CarriesOf(st', f, d) ==> e == f
  {
    var st' := CallApplied(st, c, act);
    var d := st.calls[c].tree;
    assert HandOk(st.calls[c].pc, st.trees[d]) && TreeOk(st.trees[d], d, st.byte0);
    CallOwn(st, c, act);
    CallOthers(st, c, act);
    assert forall e: nat, f: nat {:trigger CarriesOf(st', e, f)} ::
        CarriesOf(st', e, f) && e != c ==> CarriesOf(st, e, f);
    assert Carries(st.calls[c].pc) ==> CarriesOf(st, c, d);
  }

  lemma {:induction false} CallInv(st: State, c: nat, act: CallAct)
    requires Inv(st) && CallEnabled(st, c, act)
    ensures Inv(CallApplied(st, c, act))
  {
    var d := st.calls[c].tree;
    assert HandOk(st.calls[c].pc, st.trees[d]) && TreeOk(st.trees[d], d, st.byte0);
    CallOwn(st, c, act);
    CallCarries(st, c, act);
    CallOthers(st, c, act);
  }

  /** A call's step leaves the other trees and the other calls' knowledge alone. */
  lemma {:induction false} CallOthers(st: State, c: nat, act: CallAct)
    requires Inv(st) && CallEnabled(st, c, act)
    ensures var st' := CallApplied(st, c, act);
            && |st'.trees| == |st.trees| && |st'.calls| == |st.calls| && !st'.sessionFirst
            && st'.calls[c].tree == st.calls[c].tree
            && (forall e {:trigger st'.trees[e]} :: 0 <= e < |st.trees| && e != st.calls[c].tree ==>
                  TreeOk(st'.trees[e], e, st'.byte0))
            && (forall e {:trigger st'.calls[e]} :: 0 <= e < |st.calls| && e != c ==>
                  && st'.calls[e] == st.calls[e] && st'.calls[e].tree < |st'.trees|
                  && HandOk(st'.calls[e].pc, st'.trees[st'.calls[e].tree]))
  {
    var st' := CallApplied(st, c, act);
    var d := st.calls[c].tree;
    assert TreeOk(st.trees[d], d, st.byte0);
    forall e {:trigger st'.calls[e]} | 0 <= e < |st.calls| && e != c
      ensures st'.calls[e] == st.calls[e] && HandOk(st'.calls[e].pc, st'.trees[st'.calls[e].tree])
    {
      assert HandOk(st.calls[e].pc, st.trees[st.calls[e].tree]);
      assert CarriesOf(st, e, d) ==> !CarriesOf(st, c, d);
    }
  }

  lemma {:induction false} StepInv(st: State, step: Step)
    requires Inv(st) && Enabled(st, step)
    ensures Inv(Apply(st, step))
  {
    match step
    case OnTree(d, act) => TreeInv(st, d, act);
    case OnCall(c, act) => CallInv(st, c, act);
  }

  lemma {:induction false} TreeSize(st: State, d: nat, act: TreeAct)
    requires TreeEnabled(st, d, act)
    ensures |TreeApplied(st, d, act).trees| == |st.trees|
  {
  }

  lemma {:induction false} StepSize(st: State, step: Step)
    requires Inv(st) && Enabled(st, step)
    ensures |Apply(st, step).trees| == |st.trees|
  {
    match step
    case OnTree(d, act) => TreeSize(st, d, act);
    case OnCall(c, act) => CallOthers(st, c, act);
  }

  lemma {:induction false} ExecInv(st: State, steps: seq<Step>)
    requires Inv(st) && Exec(st, steps).Some?
    ensures Inv(Exec(st, steps).value)
    ensures |Exec(st, steps).value.trees| == |st.trees|
    decreases |steps|
  {
    if steps != [] {
      StepInv(st, steps[0]);
      StepSize(st, steps[0]);
      ExecInv(Apply(st, steps[0]), steps[1..]);
    }
  }

  /** Over every run, and whatever calls are in flight: no two processes serve, and a server holds byte 0. */
  lemma {:induction false} OneServer(st: State, steps: seq<Step>, d: nat, e: nat)
    requires Init(st) && !st.sessionFirst
    requires Exec(st, steps).Some? && d < |st.trees| && e < |st.trees|
    ensures var now := Exec(st, steps).value;
            && |now.trees| == |st.trees|
            && (now.trees[d].serving ==> now.byte0 == Some(d) && now.trees[d].alive && now.trees[d].slotByte)
            && (now.trees[d].serving && now.trees[e].serving ==> d == e)
  {
    InitInv(st);
    ExecInv(st, steps);
    var now := Exec(st, steps).value;
    assert TreeOk(now.trees[d], d, now.byte0) && TreeOk(now.trees[e], e, now.byte0);
  }

  /**
   Putting an attachment back drops one that was there in exactly one case: the call found the cell
   empty, and somebody filled it since. A call that carries the session never overwrites anything.
   */
  lemma {:induction false} PutDropsExactlyWhen(st: State, steps: seq<Step>, c: nat)
    requires Init(st) && !st.sessionFirst && Exec(st, steps).Some?
    requires CallEnabled(Exec(st, steps).value, c, Put)
    ensures var now := Exec(st, steps).value;
            var d := now.calls[c].tree;
            && var next := CallApplied(now, c, Put).trees[d];
            && (next.dropping == Stopping && now.trees[d].dropping == Kept
                <==> now.calls[c].pc.what == None && now.trees[d].cell.Some?)
            && (now.calls[c].pc.what.Some? ==> now.trees[d].cell == None && next.dropping == Kept && next.slotByte)
  {
    InitInv(st);
    ExecInv(st, steps);
    var now := Exec(st, steps).value;
    var d := now.calls[c].tree;
    assert HandOk(now.calls[c].pc, now.trees[d]) && TreeOk(now.trees[d], d, now.byte0);
  }

  // ---------------------------------------------------------------------------------------------
  // One call in flight per tree: every exit puts back what it took
  // ---------------------------------------------------------------------------------------------

  /** Call `c` is in flight on tree `d`. */
  predicate FlightOf(st: State, c: nat, d: nat) {
    c < |st.calls| && st.calls[c].tree == d && InFlight(st.calls[c].pc)
  }

  /** Where the attachment of a call that began on a joined tree is. */
  predicate Accounted(call: Call, tree: Tree) {
    InFlight(call.pc) && call.before == Some(Joined) ==>
      && tree.dropping == Kept && tree.slotByte
      && (match call.pc
          case Begun => tree.cell == Some(Joined)
          case SawJoined => tree.cell == Some(Joined)
          case SawLost => tree.cell == Some(Joined)
          case SawWritable => tree.cell == Some(Joined)
          case Putting(what, outcome) =>
            && (outcome == Inherited ==> what == Some(Owner) && (tree.alive ==> tree.serving))
            && (outcome != Inherited ==> what == Some(Joined))
            && (outcome == Inherited || outcome == Contended || outcome == Failed || outcome == FailedKeeping)
            && (outcome == Contended || outcome == Failed ==> !tree.stuck)
            && (outcome == FailedKeeping ==> tree.stuck)
          case _ => true)
  }

  ghost predicate Solo(st: State) {
    && st.single
    && Inv(st)
    && (forall c: nat, e: nat, d: nat {:trigger FlightOf(st, c, d), FlightOf(st, e, d)} ::
          FlightOf(st, c, d) && FlightOf(st, e, d) ==> c == e)
    && (forall c {:trigger st.calls[c]} :: 0 <= c < |st.calls| ==> Accounted(st.calls[c], st.trees[st.calls[c].tree]))
  }

  lemma {:induction false} TreeSolo(st: State, d: nat, act: TreeAct)
    requires Solo(st) && TreeEnabled(st, d, act)
    ensures Solo(TreeApplied(st, d, act))
  {
    TreeInv(st, d, act);
    var st' := TreeApplied(st, d, act);
    assert st'.calls == st.calls;
    assert forall c: nat, e: nat {:trigger FlightOf(st', c, e)} :: FlightOf(st', c, e) ==> FlightOf(st, c, e);
    forall c {:trigger st'.calls[c]} | 0 <= c < |st'.calls|
      ensures Accounted(st'.calls[c], st'.trees[st'.calls[c].tree])
    {
      assert Accounted(st.calls[c], st.trees[st.calls[c].tree]) && HandOk(st.calls[c].pc, st.trees[st.calls[c].tree]);
    }
  }

  /** Before or after it acts, call `c` and the tree it is about agree. */
  predicate Placed(st: State, at: State, c: nat) {
    c < |st.calls| && c < |at.calls| && st.calls[c].tree < |at.trees| &&
    var d := st.calls[c].tree;
    TreeOk(at.trees[d], d, at.byte0) && HandOk(at.calls[c].pc, at.trees[d]) && Accounted(at.calls[c], at.trees[d])
  }

  lemma {:induction false} LookPlaced(st: State, c: nat, act: CallAct)
    requires CallEnabled(st, c, act) && Looks(act) && Placed(st, st, c)
    ensures Placed(st, CallApplied(st, c, act), c)
  {
  }

  lemma {:induction false} TakePlaced(st: State, c: nat, act: CallAct)
    requires CallEnabled(st, c, act) && act.Take? && Placed(st, st, c)
    ensures Placed(st, CallApplied(st, c, act), c)
  {
  }

  lemma {:induction false} TakeOverPlaced(st: State, c: nat, act: CallAct)
    requires CallEnabled(st, c, act) && act.TakeOver? && Placed(st, st, c)
    ensures Placed(st, CallApplied(st, c, act), c)
  {
  }

  lemma {:induction false} SpawnPlaced(st: State, c: nat, act: CallAct)
    requires CallEnabled(st, c, act) && (act.Spawn? || act.GiveBack?) && Placed(st, st, c)
    ensures Placed(st, CallApplied(st, c, act), c)
  {
  }

  lemma {:induction false} PutPlaced(st: State, c: nat, act: CallAct)
    requires CallEnabled(st, c, act) && act.Put? && Placed(st, st, c)
    ensures Placed(st, CallApplied(st, c, act), c)
  {
  }

  lemma {:induction false} CallPlaced(st: State, c: nat, act: CallAct)
    requires CallEnabled(st, c, act) && Placed(st, st, c)
    ensures Placed(st, CallApplied(st, c, act), c)
  {
    if Looks(act) {
      LookPlaced(st, c, act);
    } else if act.Take? {
      TakePlaced(st, c, act);
    } else if act.TakeOver? {
      TakeOverPlaced(st, c, act);
    } else if act.Spawn? || act.GiveBack? {
      SpawnPlaced(st, c, act);
    } else {
      PutPlaced(st, c, act);
    }
  }

  lemma {:induction false} CallSolo(st: State, c: nat, act: CallAct)
    requires Solo(st) && CallEnabled(st, c, act)
    ensures Solo(CallApplied(st, c, act))
  {
    CallInv(st, c, act);
    CallOthers(st, c, act);
    CallFlights(st, c, act);
    var st' := CallApplied(st, c, act);
    var d := st.calls[c].tree;
    assert TreeOk(st.trees[d], d, st.byte0) && HandOk(st.calls[c].pc, st.trees[d]);
    assert Accounted(st.calls[c], st.trees[d]);
    CallPlaced(st, c, act);
    forall e {:trigger st'.calls[e]} | 0 <= e < |st'.calls| && e != c
      ensures Accounted(st'.calls[e], st'.trees[st'.calls[e].tree])
    {
      assert Accounted(st.calls[e], st.trees[st.calls[e].tree]);
      assert FlightOf(st, e, d) ==> !FlightOf(st, c, d);
    }
  }

  lemma {:induction false} CallFlights(st: State, c: nat, act: CallAct)
    requires Solo(st) && CallEnabled(st, c, act)
    ensures var st' := CallApplied(st, c, act);
            && st'.single
            && (forall e: nat, f: nat, d: nat {:trigger FlightOf(st', e, d), FlightOf(st', f, d)} ::
                  FlightOf(st', e, d) && FlightOf(st', f, d) ==> e == f)
  {
    var st' := CallApplied(st, c, act);
    var d := st.calls[c].tree;
    CallOthers(st, c, act);
    assert forall e: nat, f: nat {:trigger FlightOf(st', e, f)} :: FlightOf(st', e, f) && e != c ==> FlightOf(st, e, f);
    assert act.Begin? ==> forall e: nat {:trigger FlightOf(st', e, d)} :: FlightOf(st', e, d) ==> e == c;
    assert !act.Begin? ==> FlightOf(st, c, d);
  }

  lemma {:induction false} StepSolo(st: State, step: Step)
    requires Solo(st) && Enabled(st, step)
    ensures Solo(Apply(st, step))
  {
    match step
    case OnTree(d, act) => TreeSolo(st, d, act);
    case OnCall(c, act) => CallSolo(st, c, act);
  }

  lemma {:induction false} ExecSolo(st: State, steps: seq<Step>)
    requires Solo(st) && Exec(st, steps).Some?
    ensures Solo(Exec(st, steps).value)
    decreases |steps|
  {
    if steps != [] {
      StepSolo(st, steps[0]);
      ExecSolo(Apply(st, steps[0]), steps[1..]);
    }
  }

  /**
   A call that began on a joined tree holds on to the slot byte throughout. When it returns, the tree
   serves with byte 0 if the answer is `Inherited`; on every other answer the joined attachment is back
   in its cell. Byte 0 is then not the tree's after `Contended` or an error, but for the error of a bind
   whose release of it failed too; and an answer given before anything was tried leaves it as it was.
   */
  lemma {:induction false} EveryExitPutsItBack(st: State, steps: seq<Step>, c: nat, act: CallAct)
    requires Init(st) && !st.sessionFirst && st.single && Exec(st, steps).Some?
    requires CallEnabled(Exec(st, steps).value, c, act) && InFlight(Exec(st, steps).value.calls[c].pc)
    requires Exec(st, steps).value.calls[c].before == Some(Joined)
    ensures var now := Exec(st, steps).value;
            var next := CallApplied(now, c, act);
            var d := now.calls[c].tree;
            && now.trees[d].slotByte && next.trees[d].slotByte && next.trees[d].dropping == Kept
            && (next.calls[c].pc.Returned? ==> ExitOk(now, next, d, next.calls[c].pc.outcome))
  {
    InitInv(st);
    ExecSolo(st, steps);
    var now := Exec(st, steps).value;
    var next := CallApplied(now, c, act);
    var d := now.calls[c].tree;
    CallSolo(now, c, act);
    assert Accounted(now.calls[c], now.trees[d]) && HandOk(now.calls[c].pc, now.trees[d]);
    assert TreeOk(now.trees[d], d, now.byte0) && TreeOk(next.trees[d], d, next.byte0);
  }

  /** How tree `d` stands when its call returns `outcome`, in the step from `now` to `next`. */
  predicate ExitOk(now: State, next: State, d: nat, outcome: Outcome) {
    d < |next.trees| &&
    var tree := next.trees[d];
    match outcome
    case Inherited => tree.cell == Some(Owner) && tree.serving && next.byte0 == Some(d)
    case Contended => tree.cell == Some(Joined) && !tree.serving && next.byte0 != Some(d)
    case Failed => tree.cell == Some(Joined) && !tree.serving && next.byte0 != Some(d)
    case FailedKeeping => tree.cell == Some(Joined) && !tree.serving && next.byte0 == Some(d)
    case OwnerAlive => tree.cell == Some(Joined) && !tree.serving && next.byte0 == now.byte0
    case ReadOnly => tree.cell == Some(Joined) && !tree.serving && next.byte0 == now.byte0
    case NotApplicable => false
  }
}
