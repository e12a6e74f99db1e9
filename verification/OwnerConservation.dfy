/**
 Where an attachment is: in every run, with any number of calls in flight, a tree that has one keeps it in
 its cell, in one call's hands, or in the drop that ends it. It is never in two of these places, and never
 in none.
 */
module OwnerConservation {
  import opened Options
  import opened OwnerMigration

  /** Some call has the attachment of tree `d` in hand. */
  ghost predicate InHands(st: State, d: nat) {
    exists c: nat {:trigger CarriesOf(st, c, d)} :: CarriesOf(st, c, d)
  }

  /** A living tree with its session open, and nothing being dropped, has its attachment somewhere. */
  ghost predicate Somewhere(st: State, d: nat) {
    d < |st.trees| && st.trees[d].alive && st.trees[d].slotByte && st.trees[d].dropping == Kept
    ==> st.trees[d].cell.Some? || InHands(st, d)
  }

  /** A tree's own acts: no call in flight loses what it has. */
  lemma {:induction false} TreeKeeps(st: State, e: nat, act: TreeAct, d: nat)
    requires Inv(st) && TreeEnabled(st, e, act) && Somewhere(st, d) && d < |st.trees|
    ensures d < |TreeApplied(st, e, act).trees| && Somewhere(TreeApplied(st, e, act), d)
  {
    var st' := TreeApplied(st, e, act);
    assert st'.calls == st.calls;
    if InHands(st, d) {
      var c: nat :| CarriesOf(st, c, d);
      assert CarriesOf(st', c, d);
    }
  }

  /** What the call that acts does with its own tree's attachment. */
  lemma {:induction false} CallKeepsOwn(st: State, c: nat, act: CallAct)
    requires Inv(st) && CallEnabled(st, c, act)
    ensures var d := st.calls[c].tree;
            var st' := CallApplied(st, c, act);
            && d < |st'.trees| && c < |st'.calls| && st'.calls[c].tree == d
            && (Carries(st.calls[c].pc) || st.trees[d].cell.Some? ==>
                  Carries(st'.calls[c].pc) || st'.trees[d].cell.Some? || st'.trees[d].dropping != Kept)
            && (st'.trees[d].slotByte ==> st.trees[d].slotByte) && st'.trees[d].alive
            && (st.trees[d].dropping != Kept ==> st'.trees[d].dropping != Kept)
  {
  }

  lemma {:induction false} OtherTreeStays(st: State, c: nat, act: CallAct, d: nat)
    requires CallEnabled(st, c, act) && d != st.calls[c].tree && d < |st.trees|
    ensures d < |CallApplied(st, c, act).trees| && CallApplied(st, c, act).trees[d] == st.trees[d]
  {
  }

  lemma {:induction false} OtherCallStays(st: State, c: nat, act: CallAct, e: nat)
    requires CallEnabled(st, c, act) && e != c && e < |st.calls|
    ensures e < |CallApplied(st, c, act).calls| && CallApplied(st, c, act).calls[e] == st.calls[e]
  {
  }

  lemma {:induction false} CallKeeps(st: State, c: nat, act: CallAct, d: nat)
    requires Inv(st) && CallEnabled(st, c, act) && Somewhere(st, d) && d < |st.trees|
    ensures d < |CallApplied(st, c, act).trees| && Somewhere(CallApplied(st, c, act), d)
  {
    var st' := CallApplied(st, c, act);
    CallKeepsOwn(st, c, act);
    if d != st.calls[c].tree {
      OtherTreeStays(st, c, act, d);
    }
    if InHands(st, d) {
      var e: nat :| CarriesOf(st, e, d);
      if e != c {
        OtherCallStays(st, c, act, e);
        assert CarriesOf(st', e, d);
      }
    }
    assert Carries(st'.calls[c].pc) ==> CarriesOf(st', c, st.calls[c].tree);
  }

  lemma {:induction false} ExecKeeps(st: State, steps: seq<Step>, d: nat)
    requires Inv(st) && Somewhere(st, d) && Exec(st, steps).Some? && d < |st.trees|
    ensures d < |Exec(st, steps).value.trees| && Somewhere(Exec(st, steps).value, d)
    ensures Inv(Exec(st, steps).value)
    decreases |steps|
  {
    if steps != [] {
      StepInv(st, steps[0]);
      match steps[0]
      case OnTree(e, act) => {
        TreeKeeps(st, e, act, d);
        ExecKeeps(Apply(st, steps[0]), steps[1..], d);
      }
      case OnCall(c, act) => {
        CallKeeps(st, c, act, d);
        ExecKeeps(Apply(st, steps[0]), steps[1..], d);
      }
    }
  }

  /** Whatever calls overlap: an attachment is in the cell, in one call's hands, or in its drop, and only in one. */
  lemma {:induction false} NothingIsLost(init: State, steps: seq<Step>, d: nat)
    requires Init(init) && !init.sessionFirst && Exec(init, steps).Some? && d < |init.trees|
    ensures var st := Exec(init, steps).value;
            && d < |st.trees|
            && (st.trees[d].alive && st.trees[d].slotByte ==>
                  st.trees[d].cell.Some? || InHands(st, d) || st.trees[d].dropping != Kept)
            && (st.trees[d].cell.Some? ==> st.trees[d].dropping == Kept && !InHands(st, d))
            && (forall c: nat, e: nat {:trigger CarriesOf(st, c, d), CarriesOf(st, e, d)} ::
                  CarriesOf(st, c, d) && CarriesOf(st, e, d) ==> c == e)
  {
    InitInv(init);
    ExecKeeps(init, steps, d);
    var st := Exec(init, steps).value;
    assert TreeOk(st.trees[d], d, st.byte0);
    forall c: nat {:trigger CarriesOf(st, c, d)} | CarriesOf(st, c, d) ensures st.trees[d].cell == None {
      assert HandOk(st.calls[c].pc, st.trees[d]);
    }
  }
}
