/**
 A freshly built arena as bytes: its header's fields at their offsets in zeroed memory. What connects the
 layout and the header writer with the frozen file is that such an image passes the opener's validator.
 */
module ArenaImages {
  import opened Layout
  import opened ArenaHeaders
  import opened Bytes
  import opened FrozenFormat

  /** 32-bit fields, one after another. */
  function Words(ns: seq<u32>): (r: seq<byte>)
    ensures |r| == 4 * |ns|
  {
    if ns == [] then [] else ToLe32(ns[0]) + Words(ns[1..])
  }

  lemma {:induction false} Le32Tail(a: seq<byte>, rest: seq<byte>, at: nat)
    requires at + 4 <= |rest|
    ensures Le32(a + rest, |a| + at) == Le32(rest, at)
  {
    var s := a + rest;
    assert s[|a| + at] == rest[at] && s[|a| + at + 1] == rest[at + 1];
    assert s[|a| + at + 2] == rest[at + 2] && s[|a| + at + 3] == rest[at + 3];
  }

  lemma {:induction false} WordAt(ns: seq<u32>, i: nat)
    requires i < |ns|
    ensures Le32(Words(ns), 4 * i) == ns[i]
    decreases ns
  {
    if i == 0 {
      assert Words(ns)[0..4] == ToLe32(ns[0]);
      Le32At(Words(ns), 0, ns[0]);
    } else {
      WordAt(ns[1..], i - 1);
      Le32Tail(ToLe32(ns[0]), Words(ns[1..]), 4 * (i - 1));
    }
  }

  /** Bytes 24 to 80. */
  function Counts(h: Header): (r: seq<u32>)
    ensures |r| == 14
  {
    [h.maxFrames, h.maxEdges, h.stampSlots, h.poseSlots, h.frameTableOff, h.frameHashOff, h.topoBlockOff,
     h.topoBlockStride, h.claimTableOff, h.participantTableOff, h.maxParticipants, h.edgeTableOff, h.stampArenaOff,
     h.poseArenaOff]
  }

  predicate Narrow(h: Header) {
    h.magic <= U64_MAX && h.formatVersion <= U32_MAX && h.layoutHash <= U32_MAX && h.arenaSize <= U64_MAX
  }

  function Identity(h: Header): (r: seq<byte>)
    requires Narrow(h)
    ensures |r| == 24
  {
    ToLe64(h.magic) + Words([h.formatVersion, h.layoutHash]) + ToLe64(h.arenaSize)
  }

  /** The header in an image of `size` bytes; what the writer leaves alone is zero. */
  function ImageOf(h: Header, size: nat): (r: seq<byte>)
    requires Narrow(h) && size >= HEADER_SIZE
    ensures |r| == size
  {
    Identity(h) + Words(Counts(h)) + Zeros(72) + Words([h.edgeCountersOff, h.participantCountersOff])
    + Zeros(size - 160)
  }

  /** A number read out of a part of a sequence. */
  lemma {:induction false} Le32Inside(a: seq<byte>, part: seq<byte>, c: seq<byte>, at: nat)
    requires at + 4 <= |part|
    ensures Le32(a + part + c, |a| + at) == Le32(part, at)
  {
    Le32Moves(a + part + c, |a| + at, part, at);
  }

  lemma {:induction false} ImageWords(h: Header, size: nat, i: nat)
    requires Narrow(h) && size >= HEADER_SIZE && i < 14
    ensures Le32(ImageOf(h, size), 24 + 4 * i) == Counts(h)[i]
  {
    var tail := Zeros(72) + Words([h.edgeCountersOff, h.participantCountersOff]) + Zeros(size - 160);
    assert ImageOf(h, size) == Identity(h) + Words(Counts(h)) + tail;
    Le32Inside(Identity(h), Words(Counts(h)), tail, 4 * i);
    WordAt(Counts(h), i);
  }

  lemma {:induction false} ImageCounters(h: Header, size: nat)
    requires Narrow(h) && size >= HEADER_SIZE
    ensures Le32(ImageOf(h, size), 152) == h.edgeCountersOff && Le32(ImageOf(h, size), 156) == h.participantCountersOff
  {
    var words := [h.edgeCountersOff, h.participantCountersOff];
    var head := Identity(h) + Words(Counts(h)) + Zeros(72);
    assert |head| == 152 && ImageOf(h, size) == head + Words(words) + Zeros(size - 160);
    Le32Inside(head, Words(words), Zeros(size - 160), 0);
    Le32Inside(head, Words(words), Zeros(size - 160), 4);
    WordAt(words, 0);
    WordAt(words, 1);
  }

  lemma {:induction false} ImageIdentity(h: Header, size: nat)
    requires Narrow(h) && size >= HEADER_SIZE
    ensures var image := ImageOf(h, size);
            && Le64(image, 0) == h.magic && Le32(image, 8) == h.formatVersion && Le32(image, 12) == h.layoutHash
            && Le64(image, 16) == h.arenaSize
  {
    var image := ImageOf(h, size);
    var words := Words([h.formatVersion, h.layoutHash]);
    assert image[0..8] == ToLe64(h.magic) && image[16..24] == ToLe64(h.arenaSize) && image[8..16] == words;
    Le64At(image, 0, h.magic);
    Le64At(image, 16, h.arenaSize);
    WordAt([h.formatVersion, h.layoutHash], 0);
    WordAt([h.formatVersion, h.layoutHash], 1);
    assert image[8..12] == image[8..16][0..4] == words[0..4] && image[12..16] == image[8..16][4..8] == words[4..8];
    Le32Moves(image, 8, words, 0);
    Le32Moves(image, 12, words, 4);
  }

  /** Reading the header of an image gives back the header that was put in it. */
  lemma {:induction false} ImageRoundTrip(h: Header, size: nat)
    requires Narrow(h) && size >= HEADER_SIZE
    ensures ImageHeader(ImageOf(h, size)) == h
  {
    ImageIdentity(h, size);
    ImageCounters(h, size);
    forall i: nat {:trigger Counts(h)[i]} | i < 14 ensures Le32(ImageOf(h, size), 24 + 4 * i) == Counts(h)[i] {
      ImageWords(h, size, i);
    }
    SameFields(ImageHeader(ImageOf(h, size)), h);
  }

  lemma {:induction false} SameFields(a: Header, b: Header)
    requires a.magic == b.magic && a.formatVersion == b.formatVersion && a.layoutHash == b.layoutHash
    requires a.arenaSize == b.arenaSize && Counts(a) == Counts(b)
    requires a.edgeCountersOff == b.edgeCountersOff && a.participantCountersOff == b.participantCountersOff
    ensures a == b
  {
    assert forall i {:trigger Counts(a)[i]} :: 0 <= i < 14 ==> Counts(a)[i] == Counts(b)[i];
  }

  /** The image of a new arena with this layout. */
  function NewArena(l: ArenaLayout): seq<byte>
    requires WellFormed(l) && HEADER_SIZE <= TotalSize(l.computed) <= U32_MAX
  {
    ImageOf(HeaderOf(l, TotalSize(l.computed)), TotalSize(l.computed))
  }

  lemma {:induction false} PassingHeaderPassesInAnImage(h: Header, size: nat)
    requires Narrow(h) && size >= HEADER_SIZE && ValidateArenaHeader(h, size) == Ok(())
    ensures ValidateImage(ImageOf(h, size)) == Ok(())
  {
    ImageRoundTrip(h, size);
  }

  /** Every arena whose layout is accepted has an image that the opener of a frozen file takes. */
  lemma {:induction false} EveryNewArenaCanBeFrozen(mf: u32, me: u32, capacities: seq<u32>)
    requires New(mf, me, capacities).Ok?
    ensures var l := New(mf, me, capacities).value;
            && WellFormed(l) && HEADER_SIZE <= TotalSize(l.computed) <= U32_MAX
            && |NewArena(l)| == TotalSize(l.computed) && ValidateImage(NewArena(l)) == Ok(())
  {
    var l := New(mf, me, capacities).value;
    AcceptedFitsU32(mf, me, capacities);
    HeaderFits(mf, me, capacities);
    WrittenHeaderPasses(mf, me, capacities);
    PassingHeaderPassesInAnImage(HeaderOf(l, TotalSize(l.computed)), TotalSize(l.computed));
  }

  lemma {:induction false} HeaderFits(mf: u32, me: u32, capacities: seq<u32>)
    requires New(mf, me, capacities).Ok?
    ensures TotalSize(New(mf, me, capacities).value.computed) >= HEADER_SIZE
  {
    GeometryTiles(mf, me, DEFAULT_MAX_PARTICIPANTS, Sum(capacities));
  }
}
