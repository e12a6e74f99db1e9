/**
 Where every region of an arena lives. Eleven regions follow one another in header order; the header
 stores their offsets as `u32`, and a reader recomputes them from three totals.
 */
module Layout {
  datatype Result<+T, +E> = Ok(value: T) | Err(error: E)

  const U32_MAX := 0xFFFF_FFFF
  const USIZE_MODULUS := 0x1_0000_0000_0000_0000
  const N_REGIONS := 11
  const HEADER_SIZE := 320
  const TOPO_BLOCKS := 4
  const FRAME_HASH_STRIDE := 16
  const DEFAULT_MAX_PARTICIPANTS := 64

  type u32 = n: nat | n <= U32_MAX witness 0

  datatype Region = Region(offset: nat, size: nat)

  datatype LayoutError =
    | EdgeCountMismatch(maxEdges: nat, got: nat)
    | CapacityNotPowerOfTwo(edge: nat, capacity: nat)
    | ArenaTooLarge(totalSize: nat)

  datatype Computed = Computed(regions: seq<Region>, topoStride: nat, slots: nat)

  datatype ArenaLayout = ArenaLayout(
    maxFrames: u32,
    maxEdges: u32,
    maxParticipants: u32,
    edgeCapacities: seq<u32>,
    computed: Computed)

  // ---------------------------------------------------------------------------------------------
  // The arithmetic
  // ---------------------------------------------------------------------------------------------

  function Align64(n: nat): (r: nat)
    ensures r % 64 == 0 && n <= r < n + 64
  {
    (n + 63) / 64 * 64
  }

  predicate IsPow2(n: nat) {
    n == 1 || (n > 0 && n % 2 == 0 && IsPow2(n / 2))
  }

  function Pow2(bits: nat): nat {
    if bits == 0 then 1 else 2 * Pow2(bits - 1)
  }

  lemma {:induction false} Pow2Sum(a: nat, b: nat)
    ensures Pow2(a + b) == Pow2(a) * Pow2(b)
    decreases b
  {
    if b > 0 {
      Pow2Sum(a, b - 1);
      assert Pow2(a) * Pow2(b) == 2 * (Pow2(a) * Pow2(b - 1));
    }
  }

  lemma {:induction false} Pow2IsPow2(bits: nat)
    ensures IsPow2(Pow2(bits))
    decreases bits
  {
    if bits > 0 {
      assert 2 * Pow2(bits - 1) / 2 == Pow2(bits - 1);
      Pow2IsPow2(bits - 1);
    }
  }

  /** And no others: halved until it is odd, a power of two is one. */
  lemma {:induction false} IsPow2ExactlyWhen(n: nat)
    ensures IsPow2(n) <==> exists bits: nat {:trigger Pow2(bits)} :: n == Pow2(bits)
    decreases n
  {
    if IsPow2(n) {
      if n == 1 {
        assert Pow2(0) == n;
      } else {
        IsPow2ExactlyWhen(n / 2);
        var bits: nat :| n / 2 == Pow2(bits);
        assert Pow2(bits + 1) == n;
      }
    }
    if bits: nat :| n == Pow2(bits) {
      Pow2IsPow2(bits);
    }
  }

  /** `p`, doubled until it reaches `n`. */
  function DoubledTo(p: nat, n: nat): (r: nat)
    requires p > 0
    ensures r >= n && r >= p && (p < n ==> r < 2 * n)
    decreases n - p
  {
    if p < n then DoubledTo(2 * p, n) else p
  }

  function NextPow2Of(n: nat): nat {
    DoubledTo(1, n)
  }

  lemma {:induction false} DoubledToIsPow2(p: nat, n: nat)
    requires IsPow2(p)
    ensures IsPow2(DoubledTo(p, n))
    decreases n - p
  {
    if p < n {
      assert 2 * p / 2 == p;
      DoubledToIsPow2(2 * p, n);
    }
  }

  /** No power of two lies strictly between one and its double. */
  lemma {:induction false} Pow2Gap(p: nat, q: nat)
    requires IsPow2(p) && IsPow2(q) && p < q
    ensures 2 * p <= q
    decreases q
  {
    if p != 1 && q != 1 {
      Pow2Gap(p / 2, q / 2);
    }
  }

  lemma {:induction false} DoubledToIsLeast(p: nat, n: nat, q: nat)
    requires IsPow2(p) && IsPow2(q) && n <= q && p <= q
    ensures DoubledTo(p, n) <= q
    decreases n - p
  {
    if p < n {
      assert 2 * p / 2 == p;
      Pow2Gap(p, q);
      DoubledToIsLeast(2 * p, n, q);
    }
  }

  /** The doubling loop finds the least power of two that reaches `n`. */
  method NextPow2(n: nat) returns (p: nat)
    ensures IsPow2(p) && n <= p
    ensures forall q: nat :: IsPow2(q) && n <= q ==> p <= q
    ensures p == NextPow2Of(n)
  {
    p := 1;
    while p < n
      invariant p > 0 && IsPow2(p) && DoubledTo(p, n) == NextPow2Of(n)
      invariant p == 1 || p / 2 < n
      decreases n - p
    {
      assert 2 * p / 2 == p;
      p := 2 * p;
    }
    forall q: nat | IsPow2(q) && n <= q ensures p <= q {
      DoubledToIsLeast(1, n, q);
    }
  }

  function Sum(xs: seq<nat>): nat {
    if xs == [] then 0 else xs[0] + Sum(xs[1..])
  }

  lemma {:induction false} SumAppend(xs: seq<nat>, ys: seq<nat>)
    ensures Sum(xs + ys) == Sum(xs) + Sum(ys)
  {
    if xs == [] {
      assert xs + ys == ys;
    } else {
      assert (xs + ys)[0] == xs[0] && (xs + ys)[1..] == xs[1..] + ys;
      SumAppend(xs[1..], ys);
    }
  }

  // ---------------------------------------------------------------------------------------------
  // The geometry a list of sizes implies, and the one the code computes
  // ---------------------------------------------------------------------------------------------

  /** The topology blocks, one after another. */
  function TopoSize(mf: nat): (r: nat)
    ensures r % 64 == 0
  {
    var stride := Align64(mf * 12);
    assert TOPO_BLOCKS * stride == 64 * (TOPO_BLOCKS * (stride / 64));
    TOPO_BLOCKS * stride
  }

  function Sizes(mf: nat, me: nat, mp: nat, slots: nat): (r: seq<nat>)
    ensures |r| == N_REGIONS
    ensures forall i :: 0 <= i < |r| ==> r[i] % 64 == 0
  {
    [HEADER_SIZE,
     Align64(mf * 64),
     Align64(NextPow2Of(2 * mf) * FRAME_HASH_STRIDE),
     TopoSize(mf),
     Align64(me * 64),
     Align64(mp * 128),
     Align64(me * 128),
     Align64(slots * 8),
     Align64(slots * 64),
     Align64(me * 128),
     Align64(mp * 128)]
  }

  /** Where region `i` starts: after the sizes of those before it. */
  function Start(sizes: seq<nat>, i: nat): nat
    requires i <= |sizes|
  {
    Sum(sizes[..i])
  }

  function Laid(sizes: seq<nat>): (r: seq<Region>)
    ensures |r| == |sizes|
  {
    seq(|sizes|, i requires 0 <= i < |sizes| => Region(Start(sizes, i), sizes[i]))
  }

  function Geometry(mf: nat, me: nat, mp: nat, slots: nat): (r: Computed)
    ensures |r.regions| == N_REGIONS
  {
    Computed(Laid(Sizes(mf, me, mp, slots)), Align64(mf * 12), slots)
  }

  function TotalSize(c: Computed): nat
    requires |c.regions| == N_REGIONS
  {
    c.regions[N_REGIONS - 1].offset + c.regions[N_REGIONS - 1].size
  }

  lemma {:induction false} PrefixStep(sizes: seq<nat>, i: nat)
    requires i < |sizes|
    ensures Start(sizes, i + 1) == Start(sizes, i) + sizes[i]
  {
    assert sizes[..i + 1] == sizes[..i] + [sizes[i]];
    SumAppend(sizes[..i], [sizes[i]]);
  }

  lemma {:induction false} PrefixAligned(sizes: seq<nat>, i: nat)
    requires i <= |sizes| && forall j :: 0 <= j < |sizes| ==> sizes[j] % 64 == 0
    ensures Start(sizes, i) % 64 == 0
    decreases i
  {
    if i > 0 {
      PrefixStep(sizes, i - 1);
      PrefixAligned(sizes, i - 1);
    }
  }

  lemma {:induction false} PrefixMonotone(sizes: seq<nat>, i: nat, j: nat)
    requires i <= j <= |sizes|
    ensures Start(sizes, i) <= Start(sizes, j)
    decreases j
  {
    if i < j {
      PrefixStep(sizes, j - 1);
      PrefixMonotone(sizes, i, j - 1);
    }
  }

  /** Regions tile `[0, total)`: 64-aligned, each from where the one before ends, and the last up to `total`. */
  ghost predicate Tiles(regions: seq<Region>, total: nat) {
    && |regions| > 0 && regions[0].offset == 0
    && (forall i :: 0 <= i < |regions| ==> regions[i].offset % 64 == 0 && regions[i].size % 64 == 0)
    && (forall i :: 0 <= i < |regions| - 1 ==> regions[i].offset + regions[i].size == regions[i + 1].offset)
    && regions[|regions| - 1].offset + regions[|regions| - 1].size == total
    && (forall i, j {:trigger regions[i], regions[j]} :: 0 <= i < j < |regions| ==>
          regions[i].offset + regions[i].size <= regions[j].offset)
    && (forall i :: 0 <= i < |regions| ==> regions[i].offset + regions[i].size <= total)
  }

  lemma {:induction false} GeometryTiles(mf: nat, me: nat, mp: nat, slots: nat)
    ensures var c := Geometry(mf, me, mp, slots); Tiles(c.regions, TotalSize(c))
    ensures Geometry(mf, me, mp, slots).regions[0] == Region(0, HEADER_SIZE)
  {
    var sizes := Sizes(mf, me, mp, slots);
    LaidTiles(sizes);
    assert sizes[..0] == [];
  }

  /** One region's bounds. */
  lemma {:induction false} RegionBounds(sizes: seq<nat>, i: nat)
    requires i < |sizes| && forall j :: 0 <= j < |sizes| ==> sizes[j] % 64 == 0
    ensures Start(sizes, i) % 64 == 0
    ensures Start(sizes, i) + sizes[i] == Start(sizes, i + 1) <= Sum(sizes)
  {
    assert sizes[..|sizes|] == sizes;
    PrefixAligned(sizes, i);
    PrefixStep(sizes, i);
    PrefixMonotone(sizes, i + 1, |sizes|);
  }

  lemma {:induction false} LaidTiles(sizes: seq<nat>)
    requires |sizes| > 0 && forall j :: 0 <= j < |sizes| ==> sizes[j] % 64 == 0
    ensures Tiles(Laid(sizes), Sum(sizes)) && Laid(sizes)[|sizes| - 1].offset + sizes[|sizes| - 1] == Sum(sizes)
  {
    var n := |sizes|;
    assert sizes[..n] == sizes && sizes[..0] == [];
    forall i: nat {:trigger Start(sizes, i)} | i < n
      ensures Start(sizes, i) % 64 == 0 && Start(sizes, i) + sizes[i] == Start(sizes, i + 1) <= Sum(sizes)
    {
      RegionBounds(sizes, i);
    }
    var regions := Laid(sizes);
    forall i, j {:trigger regions[i], regions[j]} | 0 <= i < j < n
      ensures regions[i].offset + regions[i].size <= regions[j].offset
    {
      PrefixMonotone(sizes, i + 1, j);
    }
  }

  /** Lists this long and no longer cannot make the code's 64-bit sums wrap. */
  const EDGES_WITHOUT_WRAP := 0x200_0000

  /** The capacities' sum is all the geometry sees of them. */
  method Compute(maxFrames: u32, maxEdges: u32, maxParticipants: u32, edgeCapacities: seq<u32>) returns (c: Computed)
    ensures c == Geometry(maxFrames, maxEdges, maxParticipants, Sum(edgeCapacities))
    ensures |edgeCapacities| == maxEdges < EDGES_WITHOUT_WRAP && maxParticipants == DEFAULT_MAX_PARTICIPANTS
            ==> TotalSize(c) < USIZE_MODULUS
  {
    var slots: nat := 0;
    for k := 0 to |edgeCapacities|
      invariant slots == Sum(edgeCapacities[..k])
    {
      PrefixStep(edgeCapacities, k);
      slots := slots + edgeCapacities[k];
    }
    assert edgeCapacities[..|edgeCapacities|] == edgeCapacities;
    var pow2 := NextPow2(2 * maxFrames);
    var topoStride := Align64(maxFrames * 12);
    var sizes := [
      HEADER_SIZE,
      Align64(maxFrames * 64),
      Align64(pow2 * FRAME_HASH_STRIDE),
      TOPO_BLOCKS * topoStride,
      Align64(maxEdges * 64),
      Align64(maxParticipants * 128),
      Align64(maxEdges * 128),
      Align64(slots * 8),
      Align64(slots * 64),
      Align64(maxEdges * 128),
      Align64(maxParticipants * 128)];
    assert sizes == Sizes(maxFrames, maxEdges, maxParticipants, slots);
    var regions := Lay(sizes);
    c := Computed(regions, topoStride, slots);
    if |edgeCapacities| == maxEdges < EDGES_WITHOUT_WRAP && maxParticipants == DEFAULT_MAX_PARTICIPANTS {
      NoWrap(maxFrames, maxEdges, edgeCapacities);
    }
  }

  /** The array of regions, filled with a running offset. */
  method Lay(sizes: seq<nat>) returns (regions: seq<Region>)
    ensures regions == Laid(sizes)
  {
    var filled := new Region[|sizes|](_ => Region(0, 0));
    var off: nat := 0;
    var i := 0;
    while i < |sizes|
      invariant 0 <= i <= |sizes| && off == Start(sizes, i)
      invariant forall j :: 0 <= j < i ==> filled[j] == Laid(sizes)[j]
    {
      PrefixStep(sizes, i);
      filled[i] := Region(off, sizes[i]);
      off := off + sizes[i];
      i := i + 1;
    }
    regions := filled[..];
  }

  // ---------------------------------------------------------------------------------------------
  // Building a layout
  // ---------------------------------------------------------------------------------------------

  predicate GoodCapacity(capacity: u32) {
    capacity == 0 || IsPow2(capacity)
  }

  function LayoutOf(mf: u32, me: u32, slots: nat, capacities: seq<u32>): Result<ArenaLayout, LayoutError> {
    var c := Geometry(mf, me, DEFAULT_MAX_PARTICIPANTS, slots);
    if TotalSize(c) > U32_MAX then Err(ArenaTooLarge(TotalSize(c)))
    else Ok(ArenaLayout(mf, me, DEFAULT_MAX_PARTICIPANTS, capacities, c))
  }

  /** The first edge whose capacity is refused, or the number of edges. */
  function FirstBad(capacities: seq<u32>, i: nat): (r: nat)
    requires i <= |capacities|
    ensures i <= r <= |capacities| && (r < |capacities| ==> !GoodCapacity(capacities[r]))
    ensures forall j :: i <= j < r ==> GoodCapacity(capacities[j])
    decreases |capacities| - i
  {
    if i == |capacities| || !GoodCapacity(capacities[i]) then i else FirstBad(capacities, i + 1)
  }

  function New(mf: u32, me: u32, capacities: seq<u32>): Result<ArenaLayout, LayoutError> {
    var bad := FirstBad(capacities, 0);
    if |capacities| != me then Err(EdgeCountMismatch(me, |capacities|))
    else if bad < |capacities| then Err(CapacityNotPowerOfTwo(bad, capacities[bad]))
    else LayoutOf(mf, me, Sum(capacities), capacities)
  }

  /** From the totals in a header, with no per-edge capacities. */
  function FromTotals(mf: u32, me: u32, totalSlots: u32): Result<ArenaLayout, LayoutError> {
    LayoutOf(mf, me, totalSlots, [])
  }

  /** `ArenaLayout::minimal`: no check, because none can fail. */
  function Minimal(): ArenaLayout {
    ArenaLayout(1, 0, DEFAULT_MAX_PARTICIPANTS, [], Geometry(1, 0, DEFAULT_MAX_PARTICIPANTS, 0))
  }

  /** The checking loop, and then the geometry. It stops at the first capacity it refuses. */
  method BuildLayout(mf: u32, me: u32, capacities: seq<u32>) returns (r: Result<ArenaLayout, LayoutError>)
    ensures r == New(mf, me, capacities)
    ensures r.Ok? <==>
            && |capacities| == me
            && (forall j :: 0 <= j < |capacities| ==> capacities[j] == 0 || IsPow2(capacities[j]))
            && TotalSize(Geometry(mf, me, DEFAULT_MAX_PARTICIPANTS, Sum(capacities))) <= U32_MAX
  {
    if |capacities| != me {
      return Err(EdgeCountMismatch(me, |capacities|));
    }
    for edge := 0 to |capacities|
      invariant FirstBad(capacities, 0) == FirstBad(capacities, edge)
      invariant forall j :: 0 <= j < edge ==> GoodCapacity(capacities[j])
    {
      if !GoodCapacity(capacities[edge]) {
        return Err(CapacityNotPowerOfTwo(edge, capacities[edge]));
      }
    }
    var c := Compute(mf, me, DEFAULT_MAX_PARTICIPANTS, capacities);
    var total := TotalSize(c);
    if total > U32_MAX {
      return Err(ArenaTooLarge(total));
    }
    r := Ok(ArenaLayout(mf, me, DEFAULT_MAX_PARTICIPANTS, capacities, c));
  }

  // ---------------------------------------------------------------------------------------------
  // What an accepted layout is
  // ---------------------------------------------------------------------------------------------

  /** The last region but two holds 64 bytes a slot, so the slots of a layout that fits are few. */
  lemma {:induction false} SlotsFit(mf: u32, me: u32, mp: nat, slots: nat)
    ensures 64 * slots <= TotalSize(Geometry(mf, me, mp, slots))
    ensures Align64(mf * 12) <= TotalSize(Geometry(mf, me, mp, slots))
  {
    GeometryTiles(mf, me, mp, slots);
    var c := Geometry(mf, me, mp, slots);
    var sizes := Sizes(mf, me, mp, slots);
    assert c.regions[8].size == sizes[8] && c.regions[3].size == sizes[3];
    assert c.regions[8].offset + c.regions[8].size <= TotalSize(c);
    assert c.regions[3].offset + c.regions[3].size <= TotalSize(c);
  }

  /** An accepted layout tiles its total, and every number the header keeps of it fits 32 bits. */
  lemma {:induction false} AcceptedFitsU32(mf: u32, me: u32, capacities: seq<u32>)
    requires New(mf, me, capacities).Ok?
    ensures var l := New(mf, me, capacities).value;
            && Tiles(l.computed.regions, TotalSize(l.computed)) && TotalSize(l.computed) <= U32_MAX
            && l.computed.slots == Sum(capacities) <= U32_MAX && l.computed.topoStride <= U32_MAX
            && (forall i :: 0 <= i < N_REGIONS ==> l.computed.regions[i].offset <= U32_MAX)
  {
    GeometryTiles(mf, me, DEFAULT_MAX_PARTICIPANTS, Sum(capacities));
    SlotsFit(mf, me, DEFAULT_MAX_PARTICIPANTS, Sum(capacities));
  }

  /** A reader that knows only the totals recomputes every region of an accepted layout. */
  lemma {:induction false} TotalsRecoverTheGeometry(mf: u32, me: u32, capacities: seq<u32>)
    requires New(mf, me, capacities).Ok?
    ensures Sum(capacities) <= U32_MAX
    ensures var l := New(mf, me, capacities).value;
            FromTotals(mf, me, Sum(capacities)) == Ok(l.(edgeCapacities := []))
  {
    AcceptedFitsU32(mf, me, capacities);
  }

  lemma {:induction false} SumBound(xs: seq<nat>, bound: nat)
    requires forall j :: 0 <= j < |xs| ==> xs[j] <= bound
    ensures Sum(xs) <= |xs| * bound
  {
    if xs != [] {
      SumBound(xs[1..], bound);
      assert |xs| * bound == bound + |xs[1..]| * bound;
    }
  }

  /** Below 2^25 edges no step of the geometry wraps a 64-bit `usize`: even the last sum stays below 2^64. */
  lemma {:induction false} NoWrap(mf: u32, me: u32, capacities: seq<u32>)
    requires |capacities| == me < EDGES_WITHOUT_WRAP
    ensures TotalSize(Geometry(mf, me, DEFAULT_MAX_PARTICIPANTS, Sum(capacities))) < USIZE_MODULUS
  {
    SumBound(capacities, U32_MAX);
    assert |capacities| * U32_MAX <= EDGES_WITHOUT_WRAP * U32_MAX;
    TotalIsSum(mf, me, DEFAULT_MAX_PARTICIPANTS, Sum(capacities));
  }

  /** The total, written out. */
  lemma {:induction false} TotalIsSum(mf: nat, me: nat, mp: nat, slots: nat)
    ensures TotalSize(Geometry(mf, me, mp, slots)) ==
            320 + Align64(mf * 64) + Align64(NextPow2Of(2 * mf) * 16) + 4 * Align64(mf * 12)
            + Align64(me * 64) + Align64(mp * 128) + Align64(me * 128) + Align64(slots * 8) + Align64(slots * 64)
            + Align64(me * 128) + Align64(mp * 128)
  {
    var s := Sizes(mf, me, mp, slots);
    LaidTiles(s);
    SumOfEleven(s);
  }

  lemma {:induction false} SumOfEleven(s: seq<nat>)
    requires |s| == N_REGIONS
    ensures Sum(s) == s[0] + s[1] + s[2] + s[3] + s[4] + s[5] + s[6] + s[7] + s[8] + s[9] + s[10]
  {
    assert s[..0] == [] && s[..11] == s;
    forall i: nat | i < 11 ensures Start(s, i + 1) == Start(s, i) + s[i] {
      PrefixStep(s, i);
    }
    assert Start(s, 1) == s[0] && Start(s, 2) == s[0] + s[1] && Start(s, 3) == Start(s, 2) + s[2];
    assert Start(s, 4) == Start(s, 3) + s[3] && Start(s, 5) == Start(s, 4) + s[4] && Start(s, 6) == Start(s, 5) + s[5];
    assert Start(s, 7) == Start(s, 6) + s[6] && Start(s, 8) == Start(s, 7) + s[7] && Start(s, 9) == Start(s, 8) + s[8];
    assert Start(s, 10) == Start(s, 9) + s[9] && Start(s, 11) == Start(s, 10) + s[10];
  }

  /** `minimal` is what `new(1, 0, [])` returns, so leaving out its checks loses nothing. */
  lemma {:induction false} MinimalIsAccepted()
    ensures New(1, 0, []) == Ok(Minimal()) && TotalSize(Minimal().computed) == 17_088
  {
    TotalIsSum(1, 0, DEFAULT_MAX_PARTICIPANTS, 0);
    assert DoubledTo(1, 2) == DoubledTo(2, 2) == 2;
  }
}
