/**
 The arena header: the writer that stores it field by field into fresh memory, and the validator that
 recomputes the geometry from the counts and trusts no offset it did not recompute itself.
 */
module ArenaHeaders {
  import opened Layout

  const TF_TREE_MAGIC := 0x0045_4552_545F_4654   // "TF_TREE\0", little-endian
  const FORMAT_VERSION: u32 := 3
  const LAYOUT_HASH: u32 := 0x3D10_4195

  /** The fields the validator looks at. */
  datatype Header = Header(
    magic: nat,
    formatVersion: nat,
    layoutHash: nat,
    arenaSize: nat,
    maxFrames: u32,
    maxEdges: u32,
    stampSlots: u32,
    poseSlots: u32,
    frameTableOff: u32,
    frameHashOff: u32,
    topoBlockOff: u32,
    topoBlockStride: u32,
    claimTableOff: u32,
    participantTableOff: u32,
    maxParticipants: u32,
    edgeTableOff: u32,
    stampArenaOff: u32,
    poseArenaOff: u32,
    edgeCountersOff: u32,
    participantCountersOff: u32)

  datatype ShmError =
    | BadMagic
    | VersionMismatch(found: nat)
    | LayoutMismatch(found: nat)
    | SizeMismatch(actual: nat, expected: nat)
    | HeaderInconsistent

  /** Rust's `as u32`: the low 32 bits. */
  function AsU32(n: nat): u32 {
    n % (U32_MAX + 1)
  }

  predicate WellFormed(l: ArenaLayout) {
    |l.computed.regions| == N_REGIONS
  }

  /** The header the code writes for a layout, in an arena of `len` bytes. */
  function HeaderOf(l: ArenaLayout, len: nat): Header
    requires WellFormed(l)
  {
    var r := l.computed.regions;
    Header(TF_TREE_MAGIC, FORMAT_VERSION, LAYOUT_HASH, len, l.maxFrames, l.maxEdges,
           AsU32(l.computed.slots), AsU32(l.computed.slots),
           AsU32(r[1].offset), AsU32(r[2].offset), AsU32(r[3].offset), AsU32(l.computed.topoStride),
           AsU32(r[4].offset), AsU32(r[5].offset), l.maxParticipants, AsU32(r[6].offset), AsU32(r[7].offset),
           AsU32(r[8].offset), AsU32(r[9].offset), AsU32(r[10].offset))
  }

  /** The comparison of a header with the layout its counts imply. */
  predicate Matches(implied: ArenaLayout, h: Header)
    requires WellFormed(implied)
  {
    var r := implied.computed.regions;
    && TotalSize(implied.computed) == h.arenaSize
    && AsU32(r[1].offset) == h.frameTableOff
    && AsU32(r[2].offset) == h.frameHashOff
    && AsU32(r[3].offset) == h.topoBlockOff
    && AsU32(implied.computed.topoStride) == h.topoBlockStride
    && AsU32(r[4].offset) == h.claimTableOff
    && AsU32(r[5].offset) == h.participantTableOff
    && implied.maxParticipants == h.maxParticipants
    && AsU32(r[6].offset) == h.edgeTableOff
    && AsU32(r[7].offset) == h.stampArenaOff
    && AsU32(r[8].offset) == h.poseArenaOff
    && AsU32(r[9].offset) == h.edgeCountersOff
    && AsU32(r[10].offset) == h.participantCountersOff
    && h.stampSlots == h.poseSlots
  }

  function ValidateArenaHeader(h: Header, size: nat): Result<(), ShmError> {
    if h.magic != TF_TREE_MAGIC then Err(BadMagic)
    else if h.formatVersion != FORMAT_VERSION then Err(VersionMismatch(h.formatVersion))
    else if h.layoutHash != LAYOUT_HASH then Err(LayoutMismatch(h.layoutHash))
    else if h.arenaSize != size then Err(SizeMismatch(size, h.arenaSize))
    else match FromTotals(h.maxFrames, h.maxEdges, h.stampSlots)
      case Err(_) => Err(HeaderInconsistent)
      case Ok(implied) => if Matches(implied, h) then Ok(()) else Err(HeaderInconsistent)
  }

  /** The memory a header is written into: zeroed, and owned by the writer. */
  class HeaderMemory {
    var magic: nat
    var formatVersion: nat
    var layoutHash: nat
    var arenaSize: nat
    var maxFrames: u32
    var maxEdges: u32
    var stampSlots: u32
    var poseSlots: u32
    var frameTableOff: u32
    var frameHashOff: u32
    var topoBlockOff: u32
    var topoBlockStride: u32
    var claimTableOff: u32
    var participantTableOff: u32
    var maxParticipants: u32
    var edgeTableOff: u32
    var stampArenaOff: u32
    var poseArenaOff: u32
    var edgeCountersOff: u32
    var participantCountersOff: u32
    var splineRegionOff: u32
    var splineDegree: nat
    var creatorPid: u32
    var ownerStartTime: nat
    var bootId: seq<nat>
    var instanceUuid: seq<nat>

    ghost function Contents(): Header
      reads this
    {
      Header(magic, formatVersion, layoutHash, arenaSize, maxFrames, maxEdges, stampSlots, poseSlots, frameTableOff,
             frameHashOff, topoBlockOff, topoBlockStride, claimTableOff, participantTableOff, maxParticipants,
             edgeTableOff, stampArenaOff, poseArenaOff, edgeCountersOff, participantCountersOff)
    }

    method WriteHeaderAt(len: nat, layout: ArenaLayout, pid: u32, startTime: nat, boot: seq<nat>, uuid: seq<nat>)
      requires WellFormed(layout) && len == TotalSize(layout.computed) && |boot| == |uuid| == 16
      modifies this
      ensures Contents() == HeaderOf(layout, len)
      ensures creatorPid == pid && ownerStartTime == startTime && bootId == boot && instanceUuid == uuid
      ensures splineRegionOff == 0 && splineDegree == 0
    {
      WriteIdentity(len);
      WriteCounts(layout);
      WriteOffsets(layout.computed);
      WriteProvenance(pid, startTime, boot, uuid);
    }

    method WriteProvenance(pid: u32, startTime: nat, boot: seq<nat>, uuid: seq<nat>)
      modifies this`splineRegionOff, this`splineDegree, this`creatorPid, this`ownerStartTime
      modifies this`bootId, this`instanceUuid
      ensures creatorPid == pid && ownerStartTime == startTime && bootId == boot && instanceUuid == uuid
      ensures splineRegionOff == 0 && splineDegree == 0
    {
      splineRegionOff := 0;
      splineDegree := 0;
      creatorPid := pid;
      ownerStartTime := startTime;
      bootId := boot;
      instanceUuid := uuid;
    }

    method WriteIdentity(len: nat)
      modifies this`magic, this`formatVersion, this`layoutHash, this`arenaSize
      ensures magic == TF_TREE_MAGIC && formatVersion == FORMAT_VERSION && layoutHash == LAYOUT_HASH && arenaSize == len
    {
      magic := TF_TREE_MAGIC;
      formatVersion := FORMAT_VERSION;
      layoutHash := LAYOUT_HASH;
      arenaSize := len;
    }

    method WriteCounts(layout: ArenaLayout)
      modifies this`maxFrames, this`maxEdges, this`stampSlots, this`poseSlots, this`maxParticipants
      ensures maxFrames == layout.maxFrames && maxEdges == layout.maxEdges && maxParticipants == layout.maxParticipants
      ensures stampSlots == poseSlots == AsU32(layout.computed.slots)
    {
      maxFrames := layout.maxFrames;
      maxEdges := layout.maxEdges;
      stampSlots := AsU32(layout.computed.slots);
      poseSlots := AsU32(layout.computed.slots);
      maxParticipants := layout.maxParticipants;
    }

    method WriteOffsets(c: Computed)
      requires |c.regions| == N_REGIONS
      modifies this`frameTableOff, this`frameHashOff, this`topoBlockOff, this`topoBlockStride, this`claimTableOff
      modifies this`participantTableOff, this`edgeTableOff, this`stampArenaOff, this`poseArenaOff
      modifies this`edgeCountersOff, this`participantCountersOff
      ensures frameTableOff == AsU32(c.regions[1].offset) && frameHashOff == AsU32(c.regions[2].offset)
      ensures topoBlockOff == AsU32(c.regions[3].offset) && topoBlockStride == AsU32(c.topoStride)
      ensures claimTableOff == AsU32(c.regions[4].offset) && participantTableOff == AsU32(c.regions[5].offset)
      ensures edgeTableOff == AsU32(c.regions[6].offset) && stampArenaOff == AsU32(c.regions[7].offset)
      ensures poseArenaOff == AsU32(c.regions[8].offset) && edgeCountersOff == AsU32(c.regions[9].offset)
      ensures participantCountersOff == AsU32(c.regions[10].offset)
    {
      frameTableOff := AsU32(c.regions[1].offset);
      frameHashOff := AsU32(c.regions[2].offset);
      topoBlockOff := AsU32(c.regions[3].offset);
      topoBlockStride := AsU32(c.topoStride);
      claimTableOff := AsU32(c.regions[4].offset);
      participantTableOff := AsU32(c.regions[5].offset);
      edgeTableOff := AsU32(c.regions[6].offset);
      stampArenaOff := AsU32(c.regions[7].offset);
      poseArenaOff := AsU32(c.regions[8].offset);
      edgeCountersOff := AsU32(c.regions[9].offset);
      participantCountersOff := AsU32(c.regions[10].offset);
    }
  }

  /** What the writer stores for a layout matches any layout with the same geometry. */
  lemma {:induction false} OwnHeaderMatches(l: ArenaLayout, implied: ArenaLayout)
    requires WellFormed(l) && implied.computed == l.computed && implied.maxParticipants == l.maxParticipants
    ensures Matches(implied, HeaderOf(l, TotalSize(l.computed)))
  {
  }

  /** A header that matches is the one the writer stores, once magic, version, hash and slots are right. */
  lemma {:induction false} MatchingHeaderIsWritten(l: ArenaLayout, h: Header, size: nat)
    requires WellFormed(l) && l.maxFrames == h.maxFrames && l.maxEdges == h.maxEdges && l.computed.slots == h.stampSlots
    ensures
      && h.magic == TF_TREE_MAGIC && h.formatVersion == FORMAT_VERSION && h.layoutHash == LAYOUT_HASH
      && h.arenaSize == size && Matches(l, h)
      <==> h == HeaderOf(l, size) && size == TotalSize(l.computed)
  {
    assert AsU32(l.computed.slots) == h.stampSlots;
  }

  lemma {:induction false} ValidatesExactlyWhen(h: Header, size: nat, implied: ArenaLayout)
    requires FromTotals(h.maxFrames, h.maxEdges, h.stampSlots) == Ok(implied) && WellFormed(implied)
    ensures ValidateArenaHeader(h, size) == Ok(()) <==>
            && h.magic == TF_TREE_MAGIC && h.formatVersion == FORMAT_VERSION && h.layoutHash == LAYOUT_HASH
            && h.arenaSize == size && Matches(implied, h)
  {
  }

  lemma {:induction false} HeaderCarriesTotals(l: ArenaLayout, size: nat)
    requires WellFormed(l) && l.computed.slots <= U32_MAX
    ensures var h := HeaderOf(l, size);
            && h.maxFrames == l.maxFrames && h.maxEdges == l.maxEdges && h.stampSlots == l.computed.slots
            && h.magic == TF_TREE_MAGIC && h.formatVersion == FORMAT_VERSION && h.layoutHash == LAYOUT_HASH
            && h.arenaSize == size
  {
  }

  lemma {:induction false} PassesGivenTotals(l: ArenaLayout, implied: ArenaLayout)
    requires WellFormed(l) && WellFormed(implied) && l.computed.slots <= U32_MAX
    requires implied.computed == l.computed && implied.maxParticipants == l.maxParticipants
    requires FromTotals(l.maxFrames, l.maxEdges, l.computed.slots) == Ok(implied)
    ensures ValidateArenaHeader(HeaderOf(l, TotalSize(l.computed)), TotalSize(l.computed)) == Ok(())
  {
    OwnHeaderMatches(l, implied);
    HeaderCarriesTotals(l, TotalSize(l.computed));
    ValidatesExactlyWhen(HeaderOf(l, TotalSize(l.computed)), TotalSize(l.computed), implied);
  }

  /** Writer and validator agree on every layout that is accepted. */
  lemma {:induction false} WrittenHeaderPasses(mf: u32, me: u32, capacities: seq<u32>)
    requires New(mf, me, capacities).Ok?
    ensures var l := New(mf, me, capacities).value;
            ValidateArenaHeader(HeaderOf(l, TotalSize(l.computed)), TotalSize(l.computed)) == Ok(())
  {
    var l := New(mf, me, capacities).value;
    TotalsRecoverTheGeometry(mf, me, capacities);
    PassesGivenTotals(l, l.(edgeCapacities := []));
  }

  /**
   A header passes exactly when it is the one the code writes for the layout its own three counts
   imply, at the size that was mapped, and that layout fits 32-bit offsets.
   */
  lemma {:induction false} PassesExactlyWhen(h: Header, size: nat)
    ensures ValidateArenaHeader(h, size) == Ok(()) <==>
            && FromTotals(h.maxFrames, h.maxEdges, h.stampSlots).Ok?
            && var l := FromTotals(h.maxFrames, h.maxEdges, h.stampSlots).value;
            h == HeaderOf(l, size) && size == TotalSize(l.computed)
  {
    if FromTotals(h.maxFrames, h.maxEdges, h.stampSlots).Ok? {
      var l := FromTotals(h.maxFrames, h.maxEdges, h.stampSlots).value;
      ValidatesExactlyWhen(h, size, l);
      MatchingHeaderIsWritten(l, h, size);
    }
  }

  /** The regions a reader forms from a header's own offset fields. */
  function RegionsFrom(h: Header): (r: seq<Region>)
    ensures |r| == N_REGIONS
  {
    [Region(0, HEADER_SIZE),
     Region(h.frameTableOff, Align64(h.maxFrames * 64)),
     Region(h.frameHashOff, Align64(NextPow2Of(2 * h.maxFrames) * FRAME_HASH_STRIDE)),
     Region(h.topoBlockOff, TOPO_BLOCKS * h.topoBlockStride),
     Region(h.claimTableOff, Align64(h.maxEdges * 64)),
     Region(h.participantTableOff, Align64(h.maxParticipants * 128)),
     Region(h.edgeTableOff, Align64(h.maxEdges * 128)),
     Region(h.stampArenaOff, Align64(h.stampSlots * 8)),
     Region(h.poseArenaOff, Align64(h.poseSlots * 64)),
     Region(h.edgeCountersOff, Align64(h.maxEdges * 128)),
     Region(h.participantCountersOff, Align64(h.maxParticipants * 128))]
  }

  /**
   The offsets of a header that passes, whoever wrote it, can be used as they stand: the regions are
   64-aligned and disjoint, each starts where the one before ends, and the last ends at the mapping's end.
   */
  lemma {:induction false} PassingHeaderTiles(h: Header, size: nat)
    requires ValidateArenaHeader(h, size) == Ok(())
    ensures Tiles(RegionsFrom(h), size) && size <= U32_MAX
  {
    var l := FromTotals(h.maxFrames, h.maxEdges, h.stampSlots).value;
    GeometryTiles(h.maxFrames, h.maxEdges, DEFAULT_MAX_PARTICIPANTS, h.stampSlots);
    SlotsFit(h.maxFrames, h.maxEdges, DEFAULT_MAX_PARTICIPANTS, h.stampSlots);
    var r := l.computed.regions;
    forall i {:trigger r[i]} | 0 <= i < N_REGIONS
      ensures r[i].offset <= U32_MAX
    {
      assert r[i].offset + r[i].size <= size;
    }
    RegionsAgree(h, l);
  }

  lemma {:induction false} RegionsAgree(h: Header, l: ArenaLayout)
    requires WellFormed(l) && Matches(l, h) && l.computed.topoStride <= U32_MAX
    requires l.computed == Geometry(h.maxFrames, h.maxEdges, DEFAULT_MAX_PARTICIPANTS, h.stampSlots)
    requires l.maxParticipants == DEFAULT_MAX_PARTICIPANTS && l.computed.regions[0].offset == 0
    requires forall i {:trigger l.computed.regions[i]} :: 0 <= i < N_REGIONS ==> l.computed.regions[i].offset <= U32_MAX
    ensures RegionsFrom(h) == l.computed.regions
  {
    OffsetsAgree(h, l);
    CountsAgree(h, l);
    SizesAgree(h);
    RegionsEqual(RegionsFrom(h), l.computed.regions);
  }

  lemma {:induction false} CountsAgree(h: Header, l: ArenaLayout)
    requires WellFormed(l) && Matches(l, h) && l.computed.topoStride <= U32_MAX
    ensures h.topoBlockStride == l.computed.topoStride && h.maxParticipants == l.maxParticipants
    ensures h.stampSlots == h.poseSlots
  {
  }

  lemma {:induction false} SizesAgree(h: Header)
    requires h.topoBlockStride == Align64(h.maxFrames * 12) && h.maxParticipants == DEFAULT_MAX_PARTICIPANTS
    requires h.stampSlots == h.poseSlots
    ensures var c := Geometry(h.maxFrames, h.maxEdges, DEFAULT_MAX_PARTICIPANTS, h.stampSlots).regions;
            forall i {:trigger c[i]} :: 0 <= i < N_REGIONS ==> RegionsFrom(h)[i].size == c[i].size
  {
    var s := Sizes(h.maxFrames, h.maxEdges, DEFAULT_MAX_PARTICIPANTS, h.stampSlots);
    assert forall i {:trigger s[i]} :: 0 <= i < N_REGIONS ==> RegionsFrom(h)[i].size == s[i];
  }

  lemma {:induction false} OffsetsAgree(h: Header, l: ArenaLayout)
    requires WellFormed(l) && Matches(l, h) && l.computed.regions[0].offset == 0
    requires forall i {:trigger l.computed.regions[i]} :: 0 <= i < N_REGIONS ==> l.computed.regions[i].offset <= U32_MAX
    ensures var r := RegionsFrom(h);
            forall i {:trigger r[i]} :: 0 <= i < N_REGIONS ==> r[i].offset == l.computed.regions[i].offset
  {
  }

  lemma {:induction false} RegionsEqual(a: seq<Region>, b: seq<Region>)
    requires |a| == |b|
    requires forall i {:trigger a[i]} :: 0 <= i < |a| ==> a[i].offset == b[i].offset
    requires forall i {:trigger b[i]} :: 0 <= i < |a| ==> a[i].size == b[i].size
    ensures a == b
  {
    forall i | 0 <= i < |a| ensures a[i] == b[i] {
      assert a[i].offset == b[i].offset && a[i].size == b[i].size;
    }
  }
}
