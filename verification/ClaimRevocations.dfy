/**
 Runs, with one attempt a tree, in which a living writer that holds its lease is revoked by a thread of
 another tree: each was a threat at the writer's Ok.
 */
module ClaimRevocations {
  import opened Options
  import opened Claims
  import opened ClaimLeases
  import opened ClaimWords
  import opened ClaimThreats
  import opened ClaimRuns

  /** Thread 0 returned Ok and stands, its lease held, when `run` ended; after `more` it is revoked. */
  ghost predicate RevokedAfterOk(init: State, run: seq<Step>, more: seq<Step>) {
    && Init(init) && init.solo && Exec(init, run).Some? && Exec(Exec(init, run).value, more).Some?
    && Stands(Exec(init, run).value, 0)
    && Exec(Exec(init, run).value, more).value.lease == Held(0, 0)
    && Revoked(Exec(Exec(init, run).value, more).value, 0)
  }

  /**
   The epoch re-check does not protect a claim from a reaper that probed before the lease was taken:
   the reaper draws after the re-check.
   */
  lemma {:induction false} AnEarlyProbeRevokesALiveWriter() returns (init: State, run: seq<Step>, more: seq<Step>)
    ensures RevokedAfterOk(init, run, more) && more == [Does(2, Bump)]
    ensures Threat(Exec(init, run).value, 0, 2) && Exec(init, run).value.threads[2].tree != 0
  {
    init := NewEdge(true);
    var st;
    run, st := OkUnderAReaper(init);
    more, st := Then(st, [], st, 2, Bump);
  }

  /** Thread 2's claim loses its swap to a reap. */
  lemma {:induction false} SwapReaped(init: State) returns (run: seq<Step>, st: State)
    requires init == NewEdge(true)
    ensures Exec(init, run) == Some(st)
    ensures st == init.(clock := 5, epoch := 1, threads := st.threads)
    ensures st.threads == [Thread(0, Idle), Thread(0, Idle), Thread(1, Swapped), Thread(2, Idle)]
  {
    run, st := Then(init, [], init, 2, Swap);
    run, st := ReapsEdge(init, run, st, 3);
  }

  /** And thread 0 stores its word, with nobody under way. */
  lemma {:induction false} StoredBesideASwap(init: State) returns (run: seq<Step>, st: State)
    requires init == NewEdge(true)
    ensures Exec(init, run) == Some(st)
    ensures st == init.(clock := 8, owner := Owned(2, 0), epoch := 2, threads := st.threads)
    ensures st.threads == [Thread(0, Stored(2)), Thread(0, Idle), Thread(1, Swapped), Thread(2, Idle)]
  {
    run, st := SwapReaped(init);
    run, st := Then(init, run, st, 0, Swap);
    run, st := Then(init, run, st, 0, Number);
    run, st := Then(init, run, st, 0, Store);
  }

  /**
   And a claimer that has swapped, and whose swap was reaped, draws its number after another tree's Ok,
   although nobody was under way when that claim stored its word.
   */
  lemma {:induction false} ASlowClaimerRevokesALiveWriter()
    returns (init: State, stored: seq<Step>, run: seq<Step>, more: seq<Step>)
    ensures Exec(init, stored).Some?
    ensures var st := Exec(init, stored).value; JustStored(st, 0) && LeaseOpen(st, 0) && !UnderWay(st, 0)
    ensures RevokedAfterOk(init, run, more) && run == stored + [Does(0, TakeLease(true)), Does(0, Check)]
    ensures Threat(Exec(init, run).value, 0, 2)
  {
    init := NewEdge(true);
    var st;
    stored, st := StoredBesideASwap(init);
    run, st := Then(init, stored, st, 0, TakeLease(true));
    run, st := Then(init, run, st, 0, Check);
    more, st := Then(st, [], st, 2, Number);
    more, st := Then(Exec(init, run).value, more, st, 2, Store);
  }
}
