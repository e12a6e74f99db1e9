/**
 Building a tree from its declarations: who is a frame, which edges are accepted, how large each ring is
 and where it lies in the sample arena.
 */
module Builder {
  import opened Layout

  const U32_TOP := 0x8000_0000

  datatype Kind = Static | Dynamic(capacity: u32)

  datatype Decl = Decl(parent: string, child: string, kind: Kind)

  /** An edge's stretch of the sample arena; a static edge has none. */
  datatype Ring = Ring(offset: u32, capacity: u32)

  datatype BuildError = DuplicateEdge(child: string) | TooManyFrames | TooManyEdges | BadLayout(why: LayoutError)

  /** `rings[i]` belongs to edge id i + 1; `slots` is the running offset after the last edge. */
  datatype Built = Built(names: seq<string>, layout: ArenaLayout, rings: seq<Ring>, slots: u32)

  // ---------------------------------------------------------------------------------------------
  // Ring capacities
  // ---------------------------------------------------------------------------------------------

  lemma {:induction false} TopIsPow2()
    ensures IsPow2(U32_TOP) && Pow2(31) == U32_TOP
  {
    assert Pow2(4) == 2 * Pow2(3) && Pow2(3) == 2 * Pow2(2) == 8;
    Pow2Sum(4, 4);
    Pow2Sum(8, 8);
    Pow2Sum(16, 16);
    assert Pow2(32) == 2 * Pow2(31);
    Pow2IsPow2(31);
  }

  /** The least power of two that reaches `n`, but never more than 2^31: past that it falls short of `n`. */
  method NextPow2U32(n: u32) returns (r: u32)
    ensures IsPow2(r) && r <= U32_TOP
    ensures n <= r <==> n <= U32_TOP
    ensures n <= U32_TOP ==> forall q: nat :: IsPow2(q) && n <= q ==> r <= q
    ensures n > U32_TOP ==> r == U32_TOP
  {
    var p := 1;
    while p < n
      invariant p > 0 && IsPow2(p) && DoubledTo(p, n) == NextPow2Of(n)
      decreases n - p
    {
      assert 2 * p / 2 == p;
      p := 2 * p;
    }
    TopIsPow2();
    forall q: nat | IsPow2(q) && n <= q ensures p <= q {
      DoubledToIsLeast(1, n, q);
    }
    if U32_TOP < p {
      Pow2Gap(U32_TOP, p);
    }
    r := if p > U32_MAX then U32_TOP else p;
  }

  // ---------------------------------------------------------------------------------------------
  // Names and children
  // ---------------------------------------------------------------------------------------------

  /** Every name as it is met: explicit frames first, then each edge's parent and child. */
  function Mentions(frames: seq<string>, edges: seq<Decl>): seq<string>
    decreases |edges|
  {
    if edges == [] then frames
    else
      var n := |edges| - 1;
      Mentions(frames, edges[..n]) + [edges[n].parent, edges[n].child]
  }

  ghost predicate Distinct(names: seq<string>) {
    forall i, j :: 0 <= i < j < |names| ==> names[i] != names[j]
  }

  ghost predicate SameNames(names: seq<string>, mentions: seq<string>) {
    forall s :: s in names <==> s in mentions
  }

  /** The mentions, each where it is met first. */
  function Firsts(mentions: seq<string>): (r: seq<string>)
    decreases |mentions|
  {
    if mentions == [] then []
    else
      var n := |mentions| - 1;
      var before := Firsts(mentions[..n]);
      if mentions[n] in before then before else before + [mentions[n]]
  }

  lemma {:induction false} FirstsAreTheMentions(mentions: seq<string>)
    ensures Distinct(Firsts(mentions)) && SameNames(Firsts(mentions), mentions)
    decreases |mentions|
  {
    if mentions != [] {
      FirstsAreTheMentions(mentions[..|mentions| - 1]);
      assert mentions == mentions[..|mentions| - 1] + [mentions[|mentions| - 1]];
    }
  }

  /** Of two names, the one with the smaller id is met before the other is. */
  lemma {:induction false} FirstsAreInOrder(mentions: seq<string>, i: nat, j: nat) returns (p: nat)
    requires i < j < |Firsts(mentions)|
    ensures p < |mentions| && mentions[p] == Firsts(mentions)[i] && Firsts(mentions)[j] !in mentions[..p + 1]
    decreases |mentions|
  {
    var n := |mentions| - 1;
    var before := Firsts(mentions[..n]);
    FirstsAreTheMentions(mentions[..n]);
    FirstsAreTheMentions(mentions);
    if j < |before| {
      p := FirstsAreInOrder(mentions[..n], i, j);
      assert mentions[..n][..p + 1] == mentions[..p + 1];
    } else {
      assert before[i] in before;
      p :| p < n && mentions[..n][p] == before[i];
      assert forall q :: 0 <= q < p + 1 ==> mentions[..p + 1][q] == mentions[..n][q];
    }
  }

  method Add(names: seq<string>, seen: set<string>, ghost mentions: seq<string>, s: string)
    returns (names': seq<string>, seen': set<string>)
    requires names == Firsts(mentions) && forall x :: x in seen <==> x in names
    ensures names' == Firsts(mentions + [s]) && forall x :: x in seen' <==> x in names'
  {
    assert (mentions + [s])[..|mentions|] == mentions;
    names', seen' := names, seen;
    if s !in seen {
      names', seen' := names + [s], seen + {s};
    }
  }

  /** Each frame once, in the order they are first met. */
  method UniqueNames(frames: seq<string>, edges: seq<Decl>) returns (names: seq<string>)
    ensures names == Firsts(Mentions(frames, edges))
    ensures Distinct(names) && SameNames(names, Mentions(frames, edges))
  {
    names := [];
    var seen: set<string> := {};
    for i := 0 to |frames|
      invariant names == Firsts(frames[..i]) && forall x :: x in seen <==> x in names
    {
      assert frames[..i + 1] == frames[..i] + [frames[i]];
      names, seen := Add(names, seen, frames[..i], frames[i]);
    }
    assert frames[..|frames|] == frames && Mentions(frames, edges[..0]) == frames;
    for i := 0 to |edges|
      invariant names == Firsts(Mentions(frames, edges[..i])) && forall x :: x in seen <==> x in names
    {
      assert edges[..i + 1][..i] == edges[..i];
      ghost var before := Mentions(frames, edges[..i]);
      assert before + [edges[i].parent, edges[i].child] == before + [edges[i].parent] + [edges[i].child];
      names, seen := Add(names, seen, before, edges[i].parent);
      names, seen := Add(names, seen, before + [edges[i].parent], edges[i].child);
    }
    assert edges[..|edges|] == edges;
    FirstsAreTheMentions(Mentions(frames, edges));
  }

  /** No two edges share a child. */
  ghost predicate Arborescent(edges: seq<Decl>) {
    forall i, j :: 0 <= i < j < |edges| ==> edges[i].child != edges[j].child
  }

  /** The first edge whose child an earlier edge has already is of this child. */
  ghost predicate FirstRepeat(edges: seq<Decl>, child: string) {
    exists j {:trigger edges[j]} ::
      0 <= j < |edges| && edges[j].child == child && Arborescent(edges[..j])
      && exists i {:trigger edges[i]} :: 0 <= i < j && edges[i].child == child
  }

  method CheckChildren(edges: seq<Decl>) returns (r: Result<(), BuildError>)
    ensures r.Ok? <==> Arborescent(edges)
    ensures r.Err? ==> r.error.DuplicateEdge? && FirstRepeat(edges, r.error.child)
  {
    var children: set<string> := {};
    for i := 0 to |edges|
      invariant forall s :: s in children <==> exists j :: 0 <= j < i && edges[j].child == s
      invariant Arborescent(edges[..i])
    {
      if edges[i].child in children {
        var j :| 0 <= j < i && edges[j].child == edges[i].child;
        assert !Arborescent(edges);
        return Err(DuplicateEdge(edges[i].child));
      }
      assert edges[..i + 1] == edges[..i] + [edges[i]];
      children := children + {edges[i].child};
    }
    assert edges[..|edges|] == edges;
    r := Ok(());
  }

  // ---------------------------------------------------------------------------------------------
  // Capacities and rings
  // ---------------------------------------------------------------------------------------------

  function CapacityOf(d: Decl): u32 {
    match d.kind
    case Static => 0
    case Dynamic(c) => c
  }

  /** Capacities by edge id: the sentinel's, then each declared edge's, then the headroom's. */
  function Capacities(edges: seq<Decl>, max: nat): (r: seq<u32>)
    requires |edges| + 1 <= max
    ensures |r| == max
  {
    seq(max, i requires 0 <= i < max => if 1 <= i <= |edges| then CapacityOf(edges[i - 1]) else 0)
  }

  method FillCapacities(edges: seq<Decl>, max: u32) returns (caps: seq<u32>)
    requires |edges| + 1 <= max
    ensures caps == Capacities(edges, max)
  {
    var filled := new u32[max](_ => 0);
    for i := 0 to |edges|
      invariant forall j :: 0 <= j < max ==>
                  filled[j] == if 1 <= j <= i then CapacityOf(edges[j - 1]) else 0
    {
      if edges[i].kind.Dynamic? {
        filled[i + 1] := edges[i].kind.capacity;
      }
    }
    caps := filled[..];
  }

  function Total(edges: seq<Decl>): nat
    decreases |edges|
  {
    if edges == [] then 0 else Total(edges[..|edges| - 1]) + CapacityOf(edges[|edges| - 1])
  }

  lemma {:induction false} SumZeros(xs: seq<nat>)
    requires forall i :: 0 <= i < |xs| ==> xs[i] == 0
    ensures Sum(xs) == 0
  {
    if xs != [] {
      SumZeros(xs[1..]);
    }
  }

  /** The sentinel and the headroom take no slots. */
  lemma {:induction false} CapacitiesSum(edges: seq<Decl>, max: nat)
    requires |edges| + 1 <= max
    ensures Sum(Capacities(edges, max)) == Total(edges)
  {
    var caps := Capacities(edges, max);
    var n := |edges|;
    assert caps == caps[..n + 1] + caps[n + 1..];
    SumAppend(caps[..n + 1], caps[n + 1..]);
    SumZeros(caps[n + 1..]);
    UsedSum(edges, caps, n);
    assert edges[..n] == edges;
  }

  lemma {:induction false} UsedSum(edges: seq<Decl>, caps: seq<u32>, k: nat)
    requires k <= |edges| && |edges| < |caps| && caps == Capacities(edges, |caps|)
    ensures Sum(caps[..k + 1]) == Total(edges[..k])
    decreases k
  {
    if k == 0 {
      assert caps[..1] == [0];
    } else {
      UsedSum(edges, caps, k - 1);
      PrefixStep(caps, k);
      assert edges[..k][..k - 1] == edges[..k - 1];
    }
  }

  /** Edge i's ring starts after the rings before it. */
  ghost predicate Laid(edges: seq<Decl>, rings: seq<Ring>, i: nat)
    requires i <= |edges| && i <= |rings|
  {
    forall j {:trigger rings[j]} :: 0 <= j < i ==>
      rings[j].capacity == CapacityOf(edges[j])
      && rings[j].offset == if edges[j].kind.Dynamic? then Total(edges[..j]) else 0
  }

  lemma {:induction false} TotalGrows(edges: seq<Decl>, i: nat, j: nat)
    requires i <= j <= |edges|
    ensures Total(edges[..i]) <= Total(edges[..j])
    decreases j
  {
    if i < j {
      assert edges[..j][..j - 1] == edges[..j - 1];
      TotalGrows(edges, i, j - 1);
    }
  }

  /** The running offset of the declaration loop stays inside `u32` as long as the whole sum does. */
  method LayRings(edges: seq<Decl>) returns (rings: seq<Ring>, runningOff: u32)
    requires Total(edges) <= U32_MAX
    ensures |rings| == |edges| && Laid(edges, rings, |edges|) && runningOff == Total(edges)
  {
    rings, runningOff := [], 0;
    for i := 0 to |edges|
      invariant |rings| == i && Laid(edges, rings, i) && runningOff == Total(edges[..i])
    {
      assert edges[..i + 1][..i] == edges[..i];
      TotalGrows(edges, i + 1, |edges|);
      assert edges[..|edges|] == edges;
      match edges[i].kind {
        case Static =>
          rings := rings + [Ring(0, 0)];
        case Dynamic(capacity) =>
          rings := rings + [Ring(runningOff, capacity)];
          runningOff := runningOff + capacity;
      }
    }
    assert edges[..|edges|] == edges;
  }

  method BuildWith(frames: seq<string>, edges: seq<Decl>, frameHeadroom: u32, edgeHeadroom: u32)
    returns (r: Result<Built, BuildError>)
    ensures r.Ok? ==> BuiltFrom(frames, edges, r.value)
    ensures var maxFrames := |Firsts(Mentions(frames, edges))| + 1 + frameHeadroom;
            var maxEdges := |edges| + 1 + edgeHeadroom;
            if !Arborescent(edges) then r.Err? && r.error.DuplicateEdge? && FirstRepeat(edges, r.error.child)
            else if maxFrames > U32_MAX then r == Err(TooManyFrames)
            else if maxEdges > U32_MAX then r == Err(TooManyEdges)
            else match New(maxFrames, maxEdges, Capacities(edges, maxEdges))
              case Err(e) => r == Err(BadLayout(e))
              case Ok(layout) => r.Ok? && r.value.layout == layout
  {
    var names := UniqueNames(frames, edges);
    var checked := CheckChildren(edges);
    if checked.Err? {
      return Err(checked.error);
    }
    var maxFrames, maxEdges := |names| + 1 + frameHeadroom, |edges| + 1 + edgeHeadroom;
    if maxFrames > U32_MAX {
      return Err(TooManyFrames);
    }
    if maxEdges > U32_MAX {
      return Err(TooManyEdges);
    }
    var caps := FillCapacities(edges, maxEdges);
    var layout := BuildLayout(maxFrames, maxEdges, caps);
    if layout.Err? {
      return Err(BadLayout(layout.error));
    }
    AcceptedFitsU32(maxFrames, maxEdges, caps);
    CapacitiesSum(edges, maxEdges);
    CapacitiesArePow2(edges, maxEdges);
    var rings, slots := LayRings(edges);
    r := Ok(Built(names, layout.value, rings, slots));
  }

  lemma {:induction false} CapacitiesArePow2(edges: seq<Decl>, max: nat)
    requires |edges| + 1 <= max && forall j :: 0 <= j < max ==> GoodCapacity(Capacities(edges, max)[j])
    ensures forall i {:trigger edges[i]} :: 0 <= i < |edges| ==> GoodCapacity(CapacityOf(edges[i]))
  {
    forall i {:trigger edges[i]} | 0 <= i < |edges| ensures GoodCapacity(CapacityOf(edges[i])) {
      assert Capacities(edges, max)[i + 1] == CapacityOf(edges[i]);
    }
  }

  /** What is asked of an accepted build. */
  ghost predicate BuiltFrom(frames: seq<string>, edges: seq<Decl>, b: Built) {
    && b.names == Firsts(Mentions(frames, edges)) && Distinct(b.names) && SameNames(b.names, Mentions(frames, edges))
    && Arborescent(edges)
    && |b.rings| == |edges| && Laid(edges, b.rings, |edges|)
    && b.slots == Total(edges) == b.layout.computed.slots
    && forall i {:trigger edges[i]} :: 0 <= i < |edges| ==> GoodCapacity(CapacityOf(edges[i]))
  }

  // ---------------------------------------------------------------------------------------------
  // The rings partition the sample arena
  // ---------------------------------------------------------------------------------------------

  predicate InRing(ring: Ring, slot: nat) {
    ring.offset <= slot < ring.offset + ring.capacity
  }

  /** In edge-id order, and disjoint: each dynamic ring ends before any later one starts. */
  lemma {:induction false} RingsAreInOrder(frames: seq<string>, edges: seq<Decl>, b: Built, i: nat, j: nat)
    requires BuiltFrom(frames, edges, b) && i < j < |edges| && edges[i].kind.Dynamic? && edges[j].kind.Dynamic?
    ensures b.rings[i].offset + b.rings[i].capacity <= b.rings[j].offset
    ensures IsPow2(b.rings[i].capacity) || b.rings[i].capacity == 0
  {
    assert edges[..i + 1][..i] == edges[..i];
    TotalGrows(edges, i + 1, j);
    assert b.rings[i].capacity == CapacityOf(edges[i]) && b.rings[j].capacity == CapacityOf(edges[j]);
  }

  /** Every slot of the arena's sample table is in exactly one dynamic edge's ring, and rings hold no others. */
  lemma {:induction false} RingsPartitionTheSlots(frames: seq<string>, edges: seq<Decl>, b: Built, slot: nat)
    requires BuiltFrom(frames, edges, b)
    ensures slot < b.layout.computed.slots <==>
            exists i {:trigger b.rings[i]} :: 0 <= i < |edges| && edges[i].kind.Dynamic? && InRing(b.rings[i], slot)
    ensures forall i, j {:trigger b.rings[i], b.rings[j]} ::
              (0 <= i < |edges| && 0 <= j < |edges| && edges[i].kind.Dynamic? && edges[j].kind.Dynamic?
               && InRing(b.rings[i], slot) && InRing(b.rings[j], slot)) ==> i == j
  {
    assert edges[..|edges|] == edges;
    if slot < Total(edges) {
      var i := Holder(edges, slot, |edges|);
      assert InRing(b.rings[i], slot);
    }
    forall i {:trigger b.rings[i]} | 0 <= i < |edges| && edges[i].kind.Dynamic? && InRing(b.rings[i], slot)
      ensures slot < Total(edges)
    {
      assert edges[..i + 1][..i] == edges[..i];
      TotalGrows(edges, i + 1, |edges|);
    }
    forall i: nat, j: nat {:trigger b.rings[i], b.rings[j]}
      | i < j < |edges| && edges[i].kind.Dynamic? && edges[j].kind.Dynamic?
      ensures !(InRing(b.rings[i], slot) && InRing(b.rings[j], slot))
    {
      RingsAreInOrder(frames, edges, b, i, j);
    }
  }

  lemma {:induction false} Holder(edges: seq<Decl>, slot: nat, k: nat) returns (i: nat)
    requires k <= |edges| && slot < Total(edges[..k])
    ensures i < k && edges[i].kind.Dynamic? && Total(edges[..i]) <= slot < Total(edges[..i]) + CapacityOf(edges[i])
    decreases k
  {
    assert k > 0;
    assert edges[..k][..k - 1] == edges[..k - 1];
    if slot < Total(edges[..k - 1]) {
      i := Holder(edges, slot, k - 1);
    } else {
      i := k - 1;
    }
  }
}
