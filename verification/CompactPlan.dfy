/**
 A plan's steps packed one 32-bit word each, static poses in a side table, and the two folds: over the
 steps, and over the words. Poses, their products and the sampler are whatever the caller supplies.
 */
module CompactPlan {
  import opened Options
  import opened Layout

  const DYN := 0x8000_0000
  const INV := 0x4000_0000
  const OPS := 16

  datatype Step<P> = Static(m: P) | Dyn(edge: u32, inverted: bool)

  /** `sample` answers nothing where the edge has no sampler or the sample fails. */
  datatype Algebra<!P> = Algebra(identity: P, mul: (P, P) -> P, mulInv: (P, P) -> P, sample: u32 -> Option<P>)

  /** `x | bit`, for a single bit. */
  function SetBit(x: u32, bit: nat): (r: u32)
    requires bit == DYN || bit == INV
  {
    if x / bit % 2 == 1 then x else x + bit
  }

  predicate HasBit(x: u32, bit: nat)
    requires bit == DYN || bit == INV
  {
    x / bit % 2 == 1
  }

  /** `op & !(DYN | INV)`. */
  function EdgeBits(op: u32): u32 {
    op % INV
  }

  function DynWord(edge: u32, inverted: bool): u32 {
    var word := SetBit(edge, DYN);
    if inverted then SetBit(word, INV) else word
  }

  /** A word says what its step said, exactly when the edge id leaves both flag bits clear. */
  lemma {:induction false} WordIsFaithfulExactlyWhen(edge: u32, inverted: bool)
    ensures var op := DynWord(edge, inverted);
            && HasBit(op, DYN)
            && (EdgeBits(op) == edge && HasBit(op, INV) == inverted <==> edge < INV)
  {
    var word := SetBit(edge, DYN);
    assert HasBit(word, DYN) && word % INV == edge % INV && HasBit(word, INV) == HasBit(edge, INV);
    assert EdgeBits(DynWord(edge, inverted)) == edge % INV;
  }

  // ---------------------------------------------------------------------------------------------
  // The fold over steps
  // ---------------------------------------------------------------------------------------------

  /** One dynamic step. */
  function Sampled<P>(a: Algebra<P>, iso: P, edge: u32, inverted: bool): Option<P> {
    match a.sample(edge)
    case None => None
    case Some(p) => Some(if inverted then a.mulInv(iso, p) else a.mul(iso, p))
  }

  function StepOn<P>(a: Algebra<P>, iso: P, step: Step<P>): Option<P> {
    match step
    case Static(m) => Some(a.mul(iso, m))
    case Dyn(edge, inverted) => Sampled(a, iso, edge, inverted)
  }

  /** The pose the steps lead to, or nothing once one of them fails. */
  function Fold<P>(a: Algebra<P>, iso: P, steps: seq<Step<P>>): Option<P> {
    if steps == [] then Some(iso)
    else match StepOn(a, iso, steps[0])
      case None => None
      case Some(next) => Fold(a, next, steps[1..])
  }

  method FoldReplica<P>(a: Algebra<P>, steps: seq<Step<P>>) returns (r: Option<P>)
    ensures r == Fold(a, a.identity, steps)
  {
    var iso := a.identity;
    var i := 0;
    while i < |steps|
      invariant 0 <= i <= |steps| && Fold(a, a.identity, steps) == Fold(a, iso, steps[i..])
    {
      assert steps[i..][0] == steps[i] && steps[i..][1..] == steps[i + 1..];
      match steps[i] {
        case Static(m) =>
          iso := a.mul(iso, m);
        case Dyn(edge, inverted) =>
          var p := a.sample(edge);
          if p == None {
            return None;
          }
          iso := if inverted then a.mulInv(iso, p.value) else a.mul(iso, p.value);
      }
      i := i + 1;
    }
    r := Some(iso);
  }

  // ---------------------------------------------------------------------------------------------
  // The words, and the fold over them
  // ---------------------------------------------------------------------------------------------

  function Statics<P>(steps: seq<Step<P>>): (r: seq<P>)
    ensures |r| <= |steps|
    decreases |steps|
  {
    if steps == [] then []
    else
      var last := steps[|steps| - 1];
      Statics(steps[..|steps| - 1]) + (if last.Static? then [last.m] else [])
  }

  function Word<P>(steps: seq<Step<P>>, i: nat): nat
    requires i < |steps|
  {
    match steps[i]
    case Dyn(edge, inverted) => DynWord(edge, inverted)
    case Static(_) => |Statics(steps[..i])|
  }

  /** Fills the array of words, and pushes each static pose to the side table. */
  method EncodeSteps<P>(steps: seq<Step<P>>) returns (ops: array<u32>, statics: seq<P>)
    requires |steps| <= 16
    ensures fresh(ops) && ops.Length == 16
    ensures statics == Statics(steps) && forall i :: 0 <= i < |steps| ==> ops[i] == Word(steps, i)
  {
    ops := new u32[OPS](_ => 0);
    statics := [];
    for i := 0 to |steps|
      invariant statics == Statics(steps[..i]) && forall j :: 0 <= j < i ==> ops[j] == Word(steps, j)
    {
      assert steps[..i + 1][..i] == steps[..i];
      match steps[i] {
        case Dyn(edge, inverted) =>
          ops[i] := DynWord(edge, inverted);
        case Static(m) =>
          statics := statics + [m];
          ops[i] := |statics| - 1;
      }
    }
    assert steps[..|steps|] == steps;
  }

  /** What a word stands for; a static index past the table cannot come out of the encoder. */
  function Meant<P>(op: u32, statics: seq<P>): Option<Step<P>> {
    if HasBit(op, DYN) then Some(Dyn(EdgeBits(op), HasBit(op, INV)))
    else if op < |statics| then Some(Static(statics[op]))
    else None
  }

  ghost predicate Encodes<P>(ops: seq<u32>, statics: seq<P>, steps: seq<Step<P>>) {
    |ops| == |steps| && forall i :: 0 <= i < |ops| ==> Meant(ops[i], statics) == Some(steps[i])
  }

  lemma {:induction false} StaticsGrow<P>(steps: seq<Step<P>>, i: nat)
    requires i < |steps| && steps[i].Static?
    ensures |Statics(steps[..i])| < |Statics(steps)| && Statics(steps)[|Statics(steps[..i])|] == steps[i].m
    decreases |steps|
  {
    var n := |steps| - 1;
    if i < n {
      StaticsGrow(steps[..n], i);
      assert steps[..n][..i] == steps[..i] && steps[..n][i] == steps[i];
    }
  }

  lemma {:induction false} EncodedStepsMeanTheSteps<P>(steps: seq<Step<P>>, ops: seq<u32>)
    requires |steps| == |ops| <= 16 && forall i :: 0 <= i < |steps| ==> ops[i] == Word(steps, i)
    requires forall i :: 0 <= i < |steps| && steps[i].Dyn? ==> steps[i].edge < INV
    ensures Encodes(ops, Statics(steps), steps)
  {
    forall i | 0 <= i < |ops| ensures Meant(ops[i], Statics(steps)) == Some(steps[i]) {
      match steps[i]
      case Dyn(edge, inverted) => WordIsFaithfulExactlyWhen(edge, inverted);
      case Static(m) => StaticsGrow(steps, i);
    }
  }

  /** The fold over words. It knows nothing of steps, only bits and the side table. */
  method FoldCompact<P>(a: Algebra<P>, ops: array<u32>, n: nat, statics: seq<P>, ghost steps: seq<Step<P>>)
    returns (r: Option<P>)
    requires n <= ops.Length && Encodes(ops[..n], statics, steps)
    ensures r == Fold(a, a.identity, steps)
  {
    var iso := a.identity;
    var i := 0;
    while i < n
      invariant 0 <= i <= n && Fold(a, a.identity, steps) == Fold(a, iso, steps[i..])
    {
      var op := ops[i];
      assert ops[..n][i] == op && Meant(op, statics) == Some(steps[i]);
      assert steps[i..][0] == steps[i] && steps[i..][1..] == steps[i + 1..];
      i := i + 1;
      if !HasBit(op, DYN) {
        iso := a.mul(iso, statics[op]);
        continue;
      }
      var p := a.sample(EdgeBits(op));
      if p == None {
        return None;
      }
      iso := if HasBit(op, INV) then a.mulInv(iso, p.value) else a.mul(iso, p.value);
    }
    r := Some(iso);
  }

  /** For any poses and any sampler: encoding a plan and folding the words is folding the plan. */
  method CompactRun<P>(a: Algebra<P>, steps: seq<Step<P>>) returns (compact: Option<P>)
    requires |steps| <= 16 && forall i :: 0 <= i < |steps| && steps[i].Dyn? ==> steps[i].edge < INV
    ensures compact == Fold(a, a.identity, steps)
  {
    var ops, statics := EncodeSteps(steps);
    EncodedStepsMeanTheSteps(steps, ops[..|steps|]);
    compact := FoldCompact(a, ops, |steps|, statics, steps);
  }

  /** The edge bound is needed: past it, a sampler that knows only that edge tells plan and words apart. */
  lemma {:induction false} AWideEdgeIsAnotherEdge<P>(a: Algebra<P>, pose: P, edge: u32, inverted: bool)
    requires edge >= INV
    requires forall e :: a.sample(e) == if e == edge then Some(pose) else None
    ensures Fold(a, a.identity, [Dyn(edge, inverted)]).Some?
    ensures Sampled(a, a.identity, EdgeBits(DynWord(edge, inverted)), HasBit(DynWord(edge, inverted), INV)) == None
  {
    var step: Step<P> := Dyn(edge, inverted);
    assert [step][1..] == [];
    WordIsFaithfulExactlyWhen(edge, inverted);
  }
}
