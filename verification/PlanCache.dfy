/**
 The per-thread plan cache: sixteen direct-mapped slots, shared by every tree on the thread, holding what
 compiling answered, refusals included. The topology moves underneath: generations grow before, during
 and after a compile. `Oracle` is what a compile answers for a scope, a target and a source while the
 topology stands still at one generation.
 */
module PlanCache {
  import opened Options
  import opened Layout

  const SLOTS := 16
  const MIX := 0x9E37_79B9_7F4A_7C15
  const U64_MODULUS := 0x1_0000_0000_0000_0000

  datatype Key = Key(scope: nat, target: nat, source: nat, generation: nat)

  /** A plan carries the generation it was compiled at. */
  datatype Plan = Plan(generation: nat, steps: seq<nat>)

  datatype LookupError = ChildDetached | FrameOutOfRange | TopologyChanged | Refusal(why: nat)

  datatype Entry = Entry(key: Key, result: Result<Plan, LookupError>)

  type Slots = s: seq<Option<Entry>> | |s| == SLOTS witness seq(SLOTS, _ => None)

  type Oracle = (nat, nat, nat, nat) -> Result<seq<nat>, LookupError>

  // ---------------------------------------------------------------------------------------------
  // The slot of a key
  // ---------------------------------------------------------------------------------------------

  /** Bitwise exclusive or. */
  function Xor(a: nat, b: nat): nat
    decreases a + b
  {
    if a == 0 && b == 0 then 0 else (a + b) % 2 + 2 * Xor(a / 2, b / 2)
  }

  function Folded(h: nat, x: nat): nat {
    Xor(h * MIX % U64_MODULUS, x)
  }

  function IndexOf(key: Key): (r: nat)
    ensures r < SLOTS
  {
    Folded(Folded(Folded(key.scope, key.target), key.source), key.generation) % SLOTS
  }

  method Index(key: Key) returns (r: nat)
    ensures r == IndexOf(key)
  {
    var h := key.scope;
    h := Folded(h, key.target);
    h := Folded(h, key.source);
    h := Folded(h, key.generation);
    r := h % SLOTS;
  }

  lemma {:induction false} XorInjective(a: nat, b: nat, c: nat)
    requires Xor(a, c) == Xor(b, c)
    ensures a == b
    decreases a + b + c
  {
    if !(a == 0 && c == 0) && !(b == 0 && c == 0) {
      assert (a + c) % 2 == (b + c) % 2 && Xor(a / 2, c / 2) == Xor(b / 2, c / 2);
      XorInjective(a / 2, b / 2, c / 2);
    } else if c == 0 {
      XorZero(a);
      XorZero(b);
    }
  }

  lemma {:induction false} XorZero(a: nat)
    ensures Xor(a, 0) == a
  {
    if a != 0 {
      XorZero(a / 2);
    }
  }

  function LowBits(x: nat, bits: nat): nat {
    if bits == 0 then 0 else x % 2 + 2 * LowBits(x / 2, bits - 1)
  }

  lemma {:induction false} LowBitsAreARemainder(x: nat, bits: nat) returns (q: nat)
    ensures x == Pow2(bits) * q + LowBits(x, bits) && LowBits(x, bits) < Pow2(bits)
    decreases bits
  {
    if bits == 0 {
      q := x;
    } else {
      q := LowBitsAreARemainder(x / 2, bits - 1);
      assert Pow2(bits) * q == 2 * (Pow2(bits - 1) * q);
      assert x == 2 * (x / 2) + x % 2;
    }
  }

  lemma {:induction false} LowNibble(x: nat)
    ensures LowBits(x, 4) == x % 16
  {
    var q := LowBitsAreARemainder(x, 4);
    assert Pow2(4) == 2 * Pow2(3) && Pow2(3) == 2 * Pow2(2) && Pow2(2) == 4;
    assert x == 16 * q + LowBits(x, 4);
  }

  lemma {:induction false} Halves(bit: nat, rest: nat)
    requires bit < 2
    ensures (bit + 2 * rest) % 2 == bit && (bit + 2 * rest) / 2 == rest
  {
  }

  lemma {:induction false} XorHalves(a: nat, b: nat)
    ensures Xor(a, b) % 2 == (a + b) % 2 && Xor(a, b) / 2 == Xor(a / 2, b / 2)
  {
    Halves((a + b) % 2, Xor(a / 2, b / 2));
  }

  /** Low bits of the result depend on low bits of the operands alone. */
  lemma {:induction false} XorLowBits(a: nat, b: nat, bits: nat)
    ensures LowBits(Xor(a, b), bits) == Xor(LowBits(a, bits), LowBits(b, bits))
    decreases bits
  {
    if bits > 0 {
      XorHalves(a, b);
      Halves(a % 2, LowBits(a / 2, bits - 1));
      Halves(b % 2, LowBits(b / 2, bits - 1));
      XorHalves(LowBits(a, bits), LowBits(b, bits));
      XorLowBits(a / 2, b / 2, bits - 1);
      SameParity(a, b, LowBits(a, bits), LowBits(b, bits));
    }
  }

  lemma {:induction false} SameParity(a: nat, b: nat, c: nat, d: nat)
    requires a % 2 == c % 2 && b % 2 == d % 2
    ensures (a + b) % 2 == (c + d) % 2
  {
  }

  lemma {:induction false} XorLowNibble(a: nat, b: nat)
    ensures Xor(a, b) % 16 == Xor(a % 16, b % 16)
  {
    XorLowBits(a, b, 4);
    LowNibble(a);
    LowNibble(b);
    LowNibble(Xor(a, b));
  }

  /** Multiplying by the odd constant permutes the low nibbles: the constant is 5 modulo 16. */
  lemma {:induction false} MulLowNibble(h: nat)
    ensures (h * MIX % U64_MODULUS) % 16 == (h % 16) * 5 % 16
  {
    var q := h / 16;
    assert h == 16 * q + h % 16;
    assert MIX == 16 * 0x9E3_779B_97F4_A7C1 + 5;
    var m := 0x9E3_779B_97F4_A7C1;
    assert h * MIX == 16 * (h * m + 5 * q) + 5 * (h % 16);
    var p := h * MIX;
    assert p == U64_MODULUS * (p / U64_MODULUS) + p % U64_MODULUS;
    assert U64_MODULUS == 16 * 0x1000_0000_0000_0000;
    assert p % U64_MODULUS == 16 * (h * m + 5 * q - 0x1000_0000_0000_0000 * (p / U64_MODULUS)) + 5 * (h % 16);
    Mod16(h * m + 5 * q - 0x1000_0000_0000_0000 * (p / U64_MODULUS), 5 * (h % 16));
  }

  lemma {:induction false} Mod16(k: int, r: int)
    ensures (16 * k + r) % 16 == r % 16
  {
  }

  lemma {:induction false} FoldPermutes(a: nat, b: nat, x: nat)
    ensures Folded(a, x) % 16 == Folded(b, x) % 16 <==> a % 16 == b % 16
  {
    MulLowNibble(a);
    MulLowNibble(b);
    XorLowNibble(a * MIX % U64_MODULUS, x);
    XorLowNibble(b * MIX % U64_MODULUS, x);
    if Folded(a, x) % 16 == Folded(b, x) % 16 {
      XorInjective(a % 16 * 5 % 16, b % 16 * 5 % 16, x % 16);
      TimesFive(a % 16, b % 16);
    }
  }

  lemma {:induction false} TimesFive(a: nat, b: nat)
    requires a < 16 && b < 16 && a * 5 % 16 == b * 5 % 16
    ensures a == b
  {
  }

  /** With target, source and generation fixed, `index` permutes the low four bits of the scope. */
  lemma {:induction false} IndexPermutesTheLowNibble(key: Key, scope: nat)
    ensures IndexOf(key) == IndexOf(key.(scope := scope)) <==> key.scope % 16 == scope % 16
  {
    var a, b := key.scope, scope;
    FoldPermutes(a, b, key.target);
    FoldPermutes(Folded(a, key.target), Folded(b, key.target), key.source);
    FoldPermutes(Folded(Folded(a, key.target), key.source), Folded(Folded(b, key.target), key.source), key.generation);
  }

  // ---------------------------------------------------------------------------------------------
  // One lookup
  // ---------------------------------------------------------------------------------------------

  /** A lookup's key, what a compile would answer if it is asked, and the generation read afterwards. */
  datatype Call = Call(key: Key, compiled: Result<Plan, LookupError>, current: nat)

  predicate Storable(call: Call) {
    call.compiled.Ok? || (call.compiled.error != ChildDetached && call.current == call.key.generation)
  }

  predicate Hits(slots: Slots, key: Key) {
    slots[IndexOf(key)].Some? && slots[IndexOf(key)].value.key == key
  }

  function Answer(slots: Slots, call: Call): Result<Plan, LookupError> {
    if Hits(slots, call.key) then slots[IndexOf(call.key)].value.result else call.compiled
  }

  function After(slots: Slots, call: Call): Slots {
    if Hits(slots, call.key) || !Storable(call) then slots
    else slots[IndexOf(call.key) := Some(Entry(call.key, call.compiled))]
  }

  class Cache {
    const slots: array<Option<Entry>>

    constructor ()
      ensures fresh(slots) && slots.Length == SLOTS && slots[..] == seq(SLOTS, _ => None)
    {
      slots := new Option<Entry>[SLOTS](_ => None);
    }

    /** `f` is applied to the plan, cached or not; a refusal is answered without it. */
    method WithPlan<R>(call: Call, f: Plan -> R) returns (r: Result<R, LookupError>, hit: bool)
      requires slots.Length == SLOTS
      modifies slots
      ensures slots[..] == After(old(slots[..]), call)
      ensures hit == Hits(old(slots[..]), call.key)
      ensures r == match Answer(old(slots[..]), call)
                   case Ok(plan) => Ok(f(plan))
                   case Err(e) => Err(e)
    {
      var idx := Index(call.key);
      if slots[idx].Some? && slots[idx].value.key == call.key {
        match slots[idx].value.result
        case Ok(plan) => return Ok(f(plan)), true;
        case Err(e) => return Err(e), true;
      }
      match call.compiled
      case Err(e) =>
        var store := StoreRefusal(call, e);
        if store {
          slots[idx] := Some(Entry(call.key, Err(e)));
        }
        return Err(e), false;
      case Ok(plan) =>
        slots[idx] := Some(Entry(call.key, Ok(plan)));
        return Ok(f(plan)), false;
    }

    /** Whether a refusal just returned for a key is a function of the key. */
    method StoreRefusal(call: Call, e: LookupError) returns (store: bool)
      requires call.compiled == Err(e)
      ensures store == Storable(call)
    {
      store := e != ChildDetached && call.current == call.key.generation;
    }
  }

  // ---------------------------------------------------------------------------------------------
  // Any run of lookups, on any number of trees, under any mutations
  // ---------------------------------------------------------------------------------------------

  function Ask(oracle: Oracle, key: Key, generation: nat): Result<seq<nat>, LookupError> {
    oracle(key.scope, key.target, key.source, generation)
  }

  /** The oracle's own answer was taken at one of the generations the compile overlapped. */
  ghost predicate RefusedWithin(oracle: Oracle, call: Call, e: LookupError) {
    exists g: nat {:trigger Ask(oracle, call.key, g)} ::
      call.key.generation <= g <= call.current && Ask(oracle, call.key, g) == Err(e)
  }

  /**
   What a compile that overlaps the generations from the key's to `current` may answer: a plan right for
   the generation it is stamped with, a refusal right for one of them, a retry limit if the topology
   moved, or a detached child.
   */
  ghost predicate Honest(oracle: Oracle, call: Call) {
    call.key.generation <= call.current &&
    match call.compiled
    case Ok(plan) =>
      call.key.generation <= plan.generation <= call.current
      && Ask(oracle, call.key, plan.generation) == Ok(plan.steps)
    case Err(e) =>
      e == ChildDetached || RefusedWithin(oracle, call, e)
      || (e == FrameOutOfRange && call.key.generation < call.current)
  }

  function Run(slots: Slots, calls: seq<Call>): Slots
    decreases |calls|
  {
    if calls == [] then slots else After(Run(slots, calls[..|calls| - 1]), calls[|calls| - 1])
  }

  const EMPTY: Slots := seq(SLOTS, _ => None)

  ghost predicate HonestEntry(oracle: Oracle, entry: Entry) {
    match entry.result
    case Ok(plan) =>
      entry.key.generation <= plan.generation && Ask(oracle, entry.key, plan.generation) == Ok(plan.steps)
    case Err(e) => Ask(oracle, entry.key, entry.key.generation) == Err(e)
  }

  ghost predicate Faithful(oracle: Oracle, slots: Slots) {
    forall i {:trigger slots[i]} :: 0 <= i < SLOTS && slots[i].Some? ==> HonestEntry(oracle, slots[i].value)
  }

  lemma {:induction false} RunFaithful(oracle: Oracle, calls: seq<Call>)
    requires forall i :: 0 <= i < |calls| ==> Honest(oracle, calls[i])
    ensures Faithful(oracle, Run(EMPTY, calls))
    decreases |calls|
  {
    if calls != [] {
      var before := calls[..|calls| - 1];
      RunFaithful(oracle, before);
      assert Honest(oracle, calls[|calls| - 1]);
    }
  }

  /** A plan evaluated under a guard pinned at `guard`; anything but the plan's own generation is refused. */
  function EvalAt<R>(plan: Plan, guard: nat, eval: seq<nat> -> R): Result<R, LookupError> {
    if plan.generation == guard then Ok(eval(plan.steps)) else Err(TopologyChanged)
  }

  /**
   Transparency. After any run of honest lookups, whatever a further lookup is answered through the
   cache and its generation check accepts, is what compiling and evaluating afresh gives at that
   generation; and a refusal served from a slot is what compiling gives at the key's generation.
   */
  lemma {:induction false} CacheIsTransparent<R>(oracle: Oracle, calls: seq<Call>, call: Call, guard: nat,
                                                 eval: seq<nat> -> R)
    requires forall i :: 0 <= i < |calls| ==> Honest(oracle, calls[i])
    requires Honest(oracle, call)
    ensures var slots := Run(EMPTY, calls);
            match Answer(slots, call)
            case Ok(plan) =>
              EvalAt(plan, guard, eval).Ok? ==>
                && Ask(oracle, call.key, guard).Ok?
                && EvalAt(plan, guard, eval) == Ok(eval(Ask(oracle, call.key, guard).value))
            case Err(e) =>
              Hits(slots, call.key) ==> Ask(oracle, call.key, call.key.generation) == Err(e)
  {
    RunFaithful(oracle, calls);
    var slots := Run(EMPTY, calls);
    if Hits(slots, call.key) {
      assert HonestEntry(oracle, slots[IndexOf(call.key)].value);
    }
  }

  // ---------------------------------------------------------------------------------------------
  // Generations only grow, so a hit is never stale
  // ---------------------------------------------------------------------------------------------

  /** Each scope's generation never falls from one lookup to the next, and not during one either. */
  ghost predicate Monotone(calls: seq<Call>) {
    && (forall i :: 0 <= i < |calls| ==> calls[i].key.generation <= calls[i].current)
    && (forall i, j {:trigger calls[i], calls[j]} :: 0 <= i < j < |calls| && calls[i].key.scope == calls[j].key.scope
          ==> calls[i].current <= calls[j].key.generation)
  }

  /** Every entry was put there by a call of the run. */
  ghost predicate Traced(slots: Slots, calls: seq<Call>) {
    forall k {:trigger slots[k]} :: 0 <= k < SLOTS && slots[k].Some? ==>
      exists i :: 0 <= i < |calls| && slots[k].value == Entry(calls[i].key, calls[i].compiled)
  }

  lemma {:induction false} RunTraced(calls: seq<Call>)
    ensures Traced(Run(EMPTY, calls), calls)
    decreases |calls|
  {
    if calls != [] {
      var n := |calls| - 1;
      RunTraced(calls[..n]);
      var slots := Run(EMPTY, calls);
      forall k {:trigger slots[k]} | 0 <= k < SLOTS && slots[k].Some?
        ensures exists i :: 0 <= i < |calls| && slots[k].value == Entry(calls[i].key, calls[i].compiled)
      {
        if slots[k] == Run(EMPTY, calls[..n])[k] {
          var i :| 0 <= i < n && slots[k].value == Entry(calls[..n][i].key, calls[..n][i].compiled);
          assert calls[..n][i] == calls[i];
        } else {
          assert slots[k].value == Entry(calls[n].key, calls[n].compiled);
        }
      }
    }
  }

  /**
   A plan served on a hit is stamped with the very generation the lookup read, even though the compile
   that filled the slot may have straddled a mutation.
   */
  lemma {:induction false} AHitIsNeverStale(oracle: Oracle, calls: seq<Call>, call: Call)
    requires Monotone(calls + [call])
    requires forall i :: 0 <= i < |calls| ==> Honest(oracle, calls[i])
    requires Hits(Run(EMPTY, calls), call.key)
    ensures match Answer(Run(EMPTY, calls), call)
            case Ok(plan) => plan.generation == call.key.generation
            case Err(e) => Ask(oracle, call.key, call.key.generation) == Err(e)
  {
    var slots := Run(EMPTY, calls);
    RunFaithful(oracle, calls);
    RunTraced(calls);
    var entry := slots[IndexOf(call.key)].value;
    assert HonestEntry(oracle, entry);
    var i :| 0 <= i < |calls| && entry == Entry(calls[i].key, calls[i].compiled);
    assert Honest(oracle, calls[i]);
    var all := calls + [call];
    assert all[i] == calls[i] && all[|calls|] == call;
  }

  // ---------------------------------------------------------------------------------------------
  // The hit law
  // ---------------------------------------------------------------------------------------------

  /** The key of the last storable call that maps to slot `k`: a fact about the calls alone. */
  function LastAt(calls: seq<Call>, k: nat): Option<Key>
    decreases |calls|
  {
    if calls == [] then None
    else
      var last := calls[|calls| - 1];
      if IndexOf(last.key) == k && Storable(last) then Some(last.key) else LastAt(calls[..|calls| - 1], k)
  }

  lemma {:induction false} SlotHoldsTheLast(calls: seq<Call>, k: nat)
    requires k < SLOTS
    ensures var slot := Run(EMPTY, calls)[k];
            LastAt(calls, k) == if slot.Some? then Some(slot.value.key) else None
    decreases |calls|
  {
    if calls != [] {
      SlotHoldsTheLast(calls[..|calls| - 1], k);
    }
  }

  /** A lookup hits exactly when the last storable lookup that mapped to its slot had the same key. */
  lemma {:induction false} HitsExactlyWhen(calls: seq<Call>, key: Key)
    ensures Hits(Run(EMPTY, calls), key) <==> LastAt(calls, IndexOf(key)) == Some(key)
  {
    SlotHoldsTheLast(calls, IndexOf(key));
  }

  ghost predicate DistinctKeys(round: seq<Call>) {
    forall i, j :: 0 <= i < j < |round| ==> round[i].key != round[j].key
  }

  /** No other call of the round maps to this one's slot. */
  ghost predicate Alone(round: seq<Call>, j: nat)
    requires j < |round|
  {
    forall i :: 0 <= i < |round| && i != j ==> IndexOf(round[i].key) != IndexOf(round[j].key)
  }

  /** `LastAt` skips what does not map to the slot. */
  lemma {:induction false} LastSkips(calls: seq<Call>, more: seq<Call>, k: nat)
    requires forall i :: 0 <= i < |more| ==> IndexOf(more[i].key) != k
    ensures LastAt(calls + more, k) == LastAt(calls, k)
    decreases |more|
  {
    if more == [] {
      assert calls + more == calls;
    } else {
      var n := |more| - 1;
      assert (calls + more)[..|calls| + n] == calls + more[..n];
      LastSkips(calls, more[..n], k);
    }
  }

  /** If something in `more` maps to the slot, the last such is what is remembered. */
  lemma {:induction false} LastFinds(calls: seq<Call>, more: seq<Call>, k: nat, at: nat)
    requires at < |more| && IndexOf(more[at].key) == k && Storable(more[at])
    requires forall i :: 0 <= i < |more| ==> Storable(more[i])
    ensures exists i :: at <= i < |more| && IndexOf(more[i].key) == k && LastAt(calls + more, k) == Some(more[i].key)
    decreases |more|
  {
    var n := |more| - 1;
    assert (calls + more)[..|calls| + n] == calls + more[..n] && (calls + more)[|calls| + n] == more[n];
    if IndexOf(more[n].key) != k {
      LastFinds(calls, more[..n], k, at);
      var i :| at <= i < n && IndexOf(more[..n][i].key) == k && LastAt(calls + more[..n], k) == Some(more[..n][i].key);
      assert more[..n][i] == more[i];
    }
  }

  /**
   Round robin. After one round over distinct keys, whatever came before it, each call of the next
   round hits exactly when its key is alone in its slot.
   */
  lemma {:induction false} RoundRobinHitsExactlyWhenAlone(before: seq<Call>, round: seq<Call>, j: nat)
    requires DistinctKeys(round) && j < |round| && forall i :: 0 <= i < |round| ==> Storable(round[i])
    ensures Hits(Run(EMPTY, before + round + round[..j]), round[j].key) <==> Alone(round, j)
  {
    var key, k := round[j].key, IndexOf(round[j].key);
    HitsExactlyWhen(before + round + round[..j], key);
    if i :| 0 <= i < j && IndexOf(round[i].key) == k {
      LastFinds(before + round, round[..j], k, i);
      assert !Alone(round, j);
    } else {
      LastSkips(before + round, round[..j], k);
      LastFinds(before, round, k, j);
      if i :| j < i < |round| && IndexOf(round[i].key) == k {
        LastFinds(before, round, k, i);
      }
    }
  }

  /** How many of a round's first `n` calls hit. */
  function CountHits(slots: Slots, round: seq<Call>, n: nat): nat
    requires n <= |round|
  {
    if n == 0 then 0
    else CountHits(slots, round, n - 1) + (if Hits(Run(slots, round[..n - 1]), round[n - 1].key) then 1 else 0)
  }

  ghost function CountAlone(round: seq<Call>, n: nat): nat
    requires n <= |round|
  {
    if n == 0 then 0 else CountAlone(round, n - 1) + (if Alone(round, n - 1) then 1 else 0)
  }

  lemma {:induction false} RunAppend(before: seq<Call>, more: seq<Call>)
    ensures Run(Run(EMPTY, before), more) == Run(EMPTY, before + more)
    decreases |more|
  {
    if more == [] {
      assert before + more == before;
    } else {
      var n := |more| - 1;
      assert (before + more)[..|before| + n] == before + more[..n];
      RunAppend(before, more[..n]);
    }
  }

  /** So the hits of a steady round are as many as there are keys alone in their slot. */
  lemma {:induction false} HitsPerRound(before: seq<Call>, round: seq<Call>, n: nat)
    requires DistinctKeys(round) && n <= |round| && forall i :: 0 <= i < |round| ==> Storable(round[i])
    ensures CountHits(Run(EMPTY, before + round), round, n) == CountAlone(round, n)
    decreases n
  {
    if n > 0 {
      HitsPerRound(before, round, n - 1);
      RunAppend(before + round, round[..n - 1]);
      RoundRobinHitsExactlyWhenAlone(before, round, n - 1);
    }
  }
}
