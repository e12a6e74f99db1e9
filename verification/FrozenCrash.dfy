/**
 Crash consistency of a `.tft`: what the file holds after any byte of the write has landed, and why an
 opener then sees all of the new arena, or nothing of it.
 */
module FrozenCrash {
  import opened Layout
  import opened ArenaHeaders
  import opened Bytes
  import opened FrozenFormat

  function Patched(content: seq<byte>, off: nat, data: seq<byte>): (r: seq<byte>)
    requires off + |data| <= |content|
    ensures |r| == |content|
  {
    seq(|content|, i requires 0 <= i < |content| => if off <= i < off + |data| then data[i - off] else content[i])
  }

  /** All bytes a writer puts down after sizing the file: manifest, image, header, in this order. */
  function Total(manifest: seq<byte>, image: seq<byte>): nat {
    |manifest| + |image| + FROZEN_HEADER_SIZE
  }

  predicate Fits(h: FrozenHeader, manifest: seq<byte>, image: seq<byte>) {
    && |h.provenance| == PROVENANCE_SIZE && h.manifestOff == FROZEN_HEADER_SIZE
    && FROZEN_HEADER_SIZE + |manifest| <= h.arenaOff && h.arenaOff + |image| == h.fileSize
  }

  /** Byte `i` of the file once the first `k` bytes have landed. */
  function StageByte(h: FrozenHeader, manifest: seq<byte>, image: seq<byte>, k: nat, i: nat): byte
    requires Fits(h, manifest, image) && i < h.fileSize
  {
    if i < FROZEN_HEADER_SIZE then
      if i + |manifest| + |image| < k then HeaderBytes(h)[i] else 0
    else if i < FROZEN_HEADER_SIZE + |manifest| then
      if i - FROZEN_HEADER_SIZE < k then manifest[i - FROZEN_HEADER_SIZE] else 0
    else if i < h.arenaOff then 0
    else if i - h.arenaOff + |manifest| < k then image[i - h.arenaOff] else 0
  }

  function Stage(h: FrozenHeader, manifest: seq<byte>, image: seq<byte>, k: nat): (r: seq<byte>)
    requires Fits(h, manifest, image)
    ensures |r| == h.fileSize
  {
    seq(h.fileSize, i requires 0 <= i < h.fileSize => StageByte(h, manifest, image, k, i))
  }

  /** A file on which the writer may have stopped after at most `limit` bytes. */
  ghost predicate PartWritten(content: seq<byte>, before: seq<byte>, h: FrozenHeader, manifest: seq<byte>,
                              image: seq<byte>, limit: nat)
    requires Fits(h, manifest, image)
  {
    || content == before
    || content == []
    || exists k: nat {:trigger Stage(h, manifest, image, k)} :: k <= limit && content == Stage(h, manifest, image, k)
  }

  lemma {:induction false} PlannedFits(h: FrozenHeader, manifest: seq<byte>, image: seq<byte>)
    requires Planned(h, manifest, image)
    ensures Fits(h, manifest, image) && h.manifestLen == |manifest| && h.arenaSize == |image|
    ensures h.formatVersion == FORMAT_VERSION && h.layoutHash == LAYOUT_HASH
    ensures h.arenaOff == RoundUp(FROZEN_HEADER_SIZE + |manifest|)
  {
  }

  // ---------------------------------------------------------------------------------------------
  // What is in a stage
  // ---------------------------------------------------------------------------------------------

  /** Once the body is down, image and manifest are whole, and the header is torn where the writer stopped. */
  lemma {:induction false} StageParts(h: FrozenHeader, manifest: seq<byte>, image: seq<byte>, k: nat)
    requires Fits(h, manifest, image) && |manifest| + |image| <= k <= Total(manifest, image)
    ensures var s := Stage(h, manifest, image, k);
            && s[..FROZEN_HEADER_SIZE] == Torn(HeaderBytes(h), k - |manifest| - |image|)
            && s[FROZEN_HEADER_SIZE..FROZEN_HEADER_SIZE + |manifest|] == manifest
            && s[h.arenaOff..h.arenaOff + |image|] == image
  {
  }

  lemma {:induction false} NoHeaderYet(h: FrozenHeader, manifest: seq<byte>, image: seq<byte>, k: nat)
    requires Fits(h, manifest, image) && k <= |manifest| + |image|
    ensures var s := Stage(h, manifest, image, k); s[..8] != FROZEN_MAGIC
  {
    var s := Stage(h, manifest, image, k);
    assert s[..8][0] == 0;
  }

  // ---------------------------------------------------------------------------------------------
  // A torn header
  // ---------------------------------------------------------------------------------------------

  lemma {:induction false} WholeFields(h: FrozenHeader)
    requires |h.provenance| == PROVENANCE_SIZE
    ensures var b := HeaderBytes(h);
            && Le32(b, 8) == h.formatVersion && Le32(b, 12) == h.layoutHash && Le64(b, 16) == h.fileSize
            && Le32(b, 24) == h.manifestOff && Le32(b, 28) == h.manifestLen && Le64(b, 32) == h.arenaOff
            && Le64(b, 40) == h.arenaSize
  {
    HeaderRoundTrip(h);
    assert ParseHeader(HeaderBytes(h)) == h;
  }

  /** Torn before the arena's offset is whole, the extents never pass. */
  lemma {:induction false} TornBeforeArenaOff(h: FrozenHeader, j: nat)
    requires |h.provenance| == PROVENANCE_SIZE && j < 40
    requires h.arenaOff == RoundUp(FROZEN_HEADER_SIZE + h.manifestLen) && h.manifestOff == FROZEN_HEADER_SIZE
    ensures CheckExtents(ParseHeader(Torn(HeaderBytes(h), j))).Err?
  {
    var b := HeaderBytes(h);
    var t := ParseHeader(Torn(b, j));
    WholeFields(h);
    TornLe64(b, j, 32);
    TornLe64(b, j, 40);
    if j >= 32 {
      TornLe32(b, j, 24);
      TornLe32(b, j, 28);
      RoundUpIsLeast(FROZEN_HEADER_SIZE + h.manifestLen, t.arenaOff);
      assert t.arenaSize == 0;
    } else {
      assert t.arenaOff == 0;
    }
  }

  lemma {:induction false} RoundUpIsLeast(n: nat, m: nat)
    ensures m % ARENA_FILE_ALIGN == 0 && n <= m ==> RoundUp(n) <= m
  {
    if m % ARENA_FILE_ALIGN == 0 && n <= m {
      assert m == m / ARENA_FILE_ALIGN * ARENA_FILE_ALIGN;
      assert (n + ARENA_FILE_ALIGN - 1) / ARENA_FILE_ALIGN <= m / ARENA_FILE_ALIGN;
    }
  }

  /** Torn later, everything but the arena's size and the provenance is whole. */
  lemma {:induction false} TornAfterArenaOff(h: FrozenHeader, j: nat)
    requires |h.provenance| == PROVENANCE_SIZE && 40 <= j <= FROZEN_HEADER_SIZE
    ensures var t := ParseHeader(Torn(HeaderBytes(h), j));
            && t.(arenaSize := h.arenaSize, provenance := h.provenance) == h
            && t.arenaSize <= h.arenaSize
            && (48 <= j ==> t.arenaSize == h.arenaSize)
  {
    var b := HeaderBytes(h);
    WholeFields(h);
    TornLe32(b, j, 8);
    TornLe32(b, j, 12);
    TornLe32(b, j, 24);
    TornLe32(b, j, 28);
    TornLe64(b, j, 16);
    TornLe64(b, j, 32);
    TornLe64(b, j, 40);
  }

  /** The image's own header gives its size, so a prefix of a valid image is not one. */
  lemma {:induction false} PrefixRefused(check: Validator, image: seq<byte>, n: nat)
    requires ReadsTheHeader(check) && check(image).Ok? && HEADER_SIZE <= n <= |image| && check(image[..n]).Ok?
    ensures n == |image| && image[..n] == image
  {
    Le64Moves(image[..n], 16, image, 16);
  }

  /** What a file that opens is known to hold. */
  lemma {:induction false} OpenedParts(check: Validator, s: seq<byte>)
    requires OpenedWith(check, s).Ok?
    ensures var v := OpenedWith(check, s).value;
            && |s| >= FROZEN_HEADER_SIZE && s[..8] == FROZEN_MAGIC
            && v.header == ParseHeader(s[..FROZEN_HEADER_SIZE]) && CheckExtents(v.header) == Ok(())
            && v.header.arenaOff + v.header.arenaSize <= |s| && v.header.arenaSize >= HEADER_SIZE
            && v.image == s[v.header.arenaOff..v.header.arenaOff + v.header.arenaSize]
            && check(v.image).Ok?
  {
  }

  lemma {:induction false} TornHeaderPasses(h: FrozenHeader, t: FrozenHeader, j: nat)
    requires |h.provenance| == PROVENANCE_SIZE && j <= FROZEN_HEADER_SIZE && h.manifestOff == FROZEN_HEADER_SIZE
    requires h.arenaOff == RoundUp(FROZEN_HEADER_SIZE + h.manifestLen)
    requires t == ParseHeader(Torn(HeaderBytes(h), j)) && CheckExtents(t) == Ok(())
    ensures t.(arenaSize := h.arenaSize, provenance := h.provenance) == h && t.arenaSize <= h.arenaSize
  {
    if j < 40 {
      TornBeforeArenaOff(h, j);
    } else {
      TornAfterArenaOff(h, j);
    }
  }

  /** The checks that pass on a torn header over a whole body make it whole but for its provenance. */
  lemma {:induction false} TornHeaderOpens(check: Validator, h: FrozenHeader, s: seq<byte>, image: seq<byte>, j: nat)
    requires |h.provenance| == PROVENANCE_SIZE && j <= FROZEN_HEADER_SIZE && h.manifestOff == FROZEN_HEADER_SIZE
    requires h.arenaOff == RoundUp(FROZEN_HEADER_SIZE + h.manifestLen) && h.arenaSize == |image|
    requires ReadsTheHeader(check) && check(image).Ok?
    requires h.arenaOff + |image| <= |s| && s[h.arenaOff..h.arenaOff + |image|] == image
    requires OpenedWith(check, s).Ok? && s[..FROZEN_HEADER_SIZE] == Torn(HeaderBytes(h), j)
    ensures var v := OpenedWith(check, s).value; v.header.(provenance := h.provenance) == h && v.image == image
  {
    var v := OpenedWith(check, s).value;
    OpenedParts(check, s);
    TornHeaderPasses(h, v.header, j);
    assert v.image == image[..v.header.arenaSize];
    PrefixRefused(check, image, v.header.arenaSize);
  }

  // ---------------------------------------------------------------------------------------------
  // The theorems
  // ---------------------------------------------------------------------------------------------

  /** An opened file shows this image and this manifest, under a header right in all but provenance. */
  predicate ShowsNew(v: View, content: seq<byte>, h: FrozenHeader, manifest: seq<byte>, image: seq<byte>) {
    && v.image == image && v.header.(provenance := h.provenance) == h
    && v.header.manifestOff + v.header.manifestLen <= |content| && ManifestOf(content, v.header) == manifest
  }

  /** The whole body under the first `j` bytes of the header. */
  predicate Headed(s: seq<byte>, h: FrozenHeader, manifest: seq<byte>, image: seq<byte>, j: nat)
    requires Fits(h, manifest, image)
  {
    && j <= FROZEN_HEADER_SIZE && |s| == h.fileSize
    && s[..FROZEN_HEADER_SIZE] == Torn(HeaderBytes(h), j)
    && s[FROZEN_HEADER_SIZE..FROZEN_HEADER_SIZE + |manifest|] == manifest
    && s[h.arenaOff..h.arenaOff + |image|] == image
  }

  lemma {:induction false} PartWrittenIsHeaded(content: seq<byte>, before: seq<byte>, h: FrozenHeader,
                                               manifest: seq<byte>, image: seq<byte>)
    requires Fits(h, manifest, image) && PartWritten(content, before, h, manifest, image, Total(manifest, image))
    ensures
      || content == before
      || |content| < FROZEN_HEADER_SIZE
      || content[..8] != FROZEN_MAGIC
      || exists j: nat :: Headed(content, h, manifest, image, j)
  {
    if content != before && content != [] {
      var k: nat :| k <= Total(manifest, image) && content == Stage(h, manifest, image, k);
      if k <= |manifest| + |image| {
        NoHeaderYet(h, manifest, image, k);
      } else {
        StageParts(h, manifest, image, k);
        assert Headed(content, h, manifest, image, k - |manifest| - |image|);
      }
    }
  }

  lemma {:induction false} HeadedShowsNew(check: Validator, s: seq<byte>, h: FrozenHeader, manifest: seq<byte>,
                                          image: seq<byte>, j: nat)
    requires Fits(h, manifest, image) && Headed(s, h, manifest, image, j) && h.manifestLen == |manifest|
    requires h.arenaOff == RoundUp(FROZEN_HEADER_SIZE + h.manifestLen) && h.arenaSize == |image|
    requires ReadsTheHeader(check) && check(image).Ok? && OpenedWith(check, s).Ok?
    ensures ShowsNew(OpenedWith(check, s).value, s, h, manifest, image)
  {
    TornHeaderOpens(check, h, s, image, j);
  }

  lemma {:induction false} CrashLeavesOldOrNewFor(check: Validator, content: seq<byte>, before: seq<byte>,
                                                  h: FrozenHeader,
                               manifest: seq<byte>, image: seq<byte>)
    requires Planned(h, manifest, image) && Fits(h, manifest, image)
    requires ReadsTheHeader(check) && check(image).Ok?
    requires PartWritten(content, before, h, manifest, image, Total(manifest, image))
    requires OpenedWith(check, content).Ok?
    ensures content == before || ShowsNew(OpenedWith(check, content).value, content, h, manifest, image)
  {
    PartWrittenIsHeaded(content, before, h, manifest, image);
    OpenedParts(check, content);
    if content != before {
      PlannedFits(h, manifest, image);
      var j: nat :| Headed(content, h, manifest, image, j);
      HeadedShowsNew(check, content, h, manifest, image, j);
    }
  }

  /**
   Stop the writer after any byte of any of its effects, over any earlier content. If the file then
   opens, either nothing was done to it, or it shows exactly the new image and the new manifest.
   */
  lemma {:induction false} CrashLeavesOldOrNew(content: seq<byte>, before: seq<byte>, h: FrozenHeader,
                                               manifest: seq<byte>, image: seq<byte>)
    requires Planned(h, manifest, image) && Fits(h, manifest, image) && ValidateImage(image).Ok?
    requires PartWritten(content, before, h, manifest, image, Total(manifest, image))
    requires Opened(content).Ok?
    ensures content == before || ShowsNew(Opened(content).value, content, h, manifest, image)
  {
    ValidateImageReadsTheHeader();
    CrashLeavesOldOrNewFor(ValidateImage, content, before, h, manifest, image);
  }

  lemma {:induction false} WholeFileOpens(check: Validator, h: FrozenHeader, s: seq<byte>, image: seq<byte>)
    requires |h.provenance| == PROVENANCE_SIZE && h.formatVersion == FORMAT_VERSION && h.layoutHash == LAYOUT_HASH
    requires CheckExtents(h) == Ok(()) && h.arenaOff + h.arenaSize == h.fileSize == |s| && h.arenaSize == |image|
    requires s[..FROZEN_HEADER_SIZE] == HeaderBytes(h) && s[h.arenaOff..] == image
    requires check(image).Ok?
    ensures OpenedWith(check, s) == Ok(View(h, image))
  {
    HeaderRoundTrip(h);
    assert s[..8] == s[..FROZEN_HEADER_SIZE][..8];
    assert s[h.arenaOff..h.arenaOff + h.arenaSize] == image;
  }

  lemma {:induction false} TornWhole(b: seq<byte>)
    ensures Torn(b, |b|) == b
  {
  }

  lemma {:induction false} CompleteFileOpensFor(check: Validator, h: FrozenHeader, manifest: seq<byte>,
                                                image: seq<byte>)
    requires Planned(h, manifest, image) && Fits(h, manifest, image)
    requires check(image).Ok? && HEADER_SIZE <= |image|
    ensures var s := Stage(h, manifest, image, Total(manifest, image));
            && OpenedWith(check, s) == Ok(View(h, image))
            && h.manifestOff + h.manifestLen <= |s| && ManifestOf(s, h) == manifest
  {
    var s := Stage(h, manifest, image, Total(manifest, image));
    PlannedFits(h, manifest, image);
    StageParts(h, manifest, image, Total(manifest, image));
    TornWhole(HeaderBytes(h));
    PlanExactlyWhen(|image|, |manifest|, h.provenance);
    WholeFileOpens(check, h, s, image);
  }

  /** A complete file opens, and gives back the header, the image and the manifest that were written. */
  lemma {:induction false} CompleteFileOpens(h: FrozenHeader, manifest: seq<byte>, image: seq<byte>)
    requires Planned(h, manifest, image) && Fits(h, manifest, image) && ValidateImage(image).Ok?
    ensures var s := Stage(h, manifest, image, Total(manifest, image));
            && Opened(s) == Ok(View(h, image))
            && h.manifestOff + h.manifestLen <= |s| && ManifestOf(s, h) == manifest
  {
    ValidateImageReadsTheHeader();
    CompleteFileOpensFor(ValidateImage, h, manifest, image);
  }

  /** The first `j` header bytes reach past the arena's offset, and its size already reads as it will. */
  predicate SizeIsWhole(h: FrozenHeader, j: nat)
    requires |h.provenance| == PROVENANCE_SIZE && j <= FROZEN_HEADER_SIZE
  {
    j >= 40 && Le64(Torn(HeaderBytes(h), j), 40) == h.arenaSize
  }

  /** So from byte 48 on, and from byte 44 on for an arena whose size fits 32 bits. */
  lemma {:induction false} SizeIsWholeBy(h: FrozenHeader, j: nat)
    requires |h.provenance| == PROVENANCE_SIZE && j <= FROZEN_HEADER_SIZE && 0 < h.arenaSize
    ensures SizeIsWhole(h, j) ==> 40 < j
    ensures 48 <= j || (44 <= j && h.arenaSize <= U32_MAX) ==> SizeIsWhole(h, j)
  {
    var b := HeaderBytes(h);
    WholeFields(h);
    TornLe64(b, j, 40);
    if 44 <= j && h.arenaSize <= U32_MAX {
      TornLe32(b, j, 40);
      assert Le32(b, 44) == 0;
      assert b[44] == b[45] == b[46] == b[47] == 0;
    }
  }

  /** The header with as much of its provenance as the first `j` bytes hold. */
  function TornProvenance(h: FrozenHeader, j: nat): (r: FrozenHeader)
    requires |h.provenance| == PROVENANCE_SIZE && j <= FROZEN_HEADER_SIZE
    ensures |r.provenance| == PROVENANCE_SIZE
  {
    h.(provenance := Torn(h.provenance, if j < 48 then 0 else j - 48))
  }

  lemma {:induction false} TornProvenanceBytes(h: FrozenHeader, j: nat)
    requires |h.provenance| == PROVENANCE_SIZE && j <= FROZEN_HEADER_SIZE && SizeIsWhole(h, j)
    ensures HeaderBytes(TornProvenance(h, j)) == Torn(HeaderBytes(h), j)
  {
    var b := HeaderBytes(h);
    var fields := b[..48];
    assert b == fields + h.provenance;
    WholeFields(h);
    WholeLe64(b, j, 40);
    assert forall i :: 40 <= i < 48 ==> Torn(b, j)[i] == Torn(b, j)[40..48][i - 40] && b[i] == b[40..48][i - 40];
    assert Torn(b, j)[..48] == fields;
    assert Torn(b, j)[48..] == TornProvenance(h, j).provenance;
    assert HeaderBytes(TornProvenance(h, j)) == fields + TornProvenance(h, j).provenance;
  }

  lemma {:induction false} OpenedHeaderIsWhole(check: Validator, h: FrozenHeader, s: seq<byte>, image: seq<byte>,
                                               j: nat)
    requires |h.provenance| == PROVENANCE_SIZE && j <= FROZEN_HEADER_SIZE && h.manifestOff == FROZEN_HEADER_SIZE
    requires h.arenaOff == RoundUp(FROZEN_HEADER_SIZE + h.manifestLen) && h.arenaSize == |image|
    requires ReadsTheHeader(check) && check(image).Ok?
    requires h.arenaOff + |image| <= |s| && s[h.arenaOff..h.arenaOff + |image|] == image
    requires OpenedWith(check, s).Ok? && s[..FROZEN_HEADER_SIZE] == Torn(HeaderBytes(h), j)
    ensures SizeIsWhole(h, j)
  {
    OpenedParts(check, s);
    TornHeaderOpens(check, h, s, image, j);
    if j < 40 {
      TornBeforeArenaOff(h, j);
      assert false;
    }
  }

  lemma {:induction false} HeadedCommitted(check: Validator, s: seq<byte>, h: FrozenHeader, manifest: seq<byte>,
                                           image: seq<byte>, j: nat)
    requires Fits(h, manifest, image) && Headed(s, h, manifest, image, j) && SizeIsWhole(h, j) && check(image).Ok?
    requires h.formatVersion == FORMAT_VERSION && h.layoutHash == LAYOUT_HASH && h.arenaSize == |image|
    requires CheckExtents(h) == Ok(())
    ensures OpenedWith(check, s) == Ok(View(TornProvenance(h, j), image))
  {
    TornProvenanceBytes(h, j);
    WholeFileOpens(check, TornProvenance(h, j), s, image);
  }

  lemma {:induction false} CommittedFor(check: Validator, h: FrozenHeader, manifest: seq<byte>, image: seq<byte>,
                                        j: nat)
    requires Planned(h, manifest, image) && Fits(h, manifest, image)
    requires ReadsTheHeader(check) && check(image).Ok? && j <= FROZEN_HEADER_SIZE
    ensures var r := OpenedWith(check, Stage(h, manifest, image, |manifest| + |image| + j));
            && (r.Ok? <==> SizeIsWhole(h, j))
            && (r.Ok? ==> r == Ok(View(TornProvenance(h, j), image)))
  {
    PlannedFits(h, manifest, image);
    PlanExactlyWhen(|image|, |manifest|, h.provenance);
    StageParts(h, manifest, image, |manifest| + |image| + j);
    HeadedExactlyWhen(check, Stage(h, manifest, image, |manifest| + |image| + j), h, manifest, image, j);
  }

  lemma {:induction false} HeadedExactlyWhen(check: Validator, s: seq<byte>, h: FrozenHeader, manifest: seq<byte>,
                                             image: seq<byte>, j: nat)
    requires Fits(h, manifest, image) && Headed(s, h, manifest, image, j) && j <= FROZEN_HEADER_SIZE
    requires h.formatVersion == FORMAT_VERSION && h.layoutHash == LAYOUT_HASH && h.arenaSize == |image|
    requires h.arenaOff == RoundUp(FROZEN_HEADER_SIZE + h.manifestLen) && CheckExtents(h) == Ok(())
    requires ReadsTheHeader(check) && check(image).Ok?
    ensures OpenedWith(check, s).Ok? <==> SizeIsWhole(h, j)
    ensures OpenedWith(check, s).Ok? ==> OpenedWith(check, s) == Ok(View(TornProvenance(h, j), image))
  {
    if OpenedWith(check, s).Ok? {
      OpenedHeaderIsWhole(check, h, s, image, j);
    }
    if SizeIsWhole(h, j) {
      HeadedCommitted(check, s, h, manifest, image, j);
    }
  }

  /**
   The commit point, exactly. Stopped after `j` bytes of the header, the file opens if and only if the
   arena's offset is whole and its size reads whole; it then shows the image under a header right in all
   but its provenance, which is torn where the writer stopped.
   */
  lemma {:induction false} CommittedExactlyWhen(h: FrozenHeader, manifest: seq<byte>, image: seq<byte>, j: nat)
    requires Planned(h, manifest, image) && Fits(h, manifest, image) && ValidateImage(image).Ok?
    requires j <= FROZEN_HEADER_SIZE
    ensures var r := Opened(Stage(h, manifest, image, |manifest| + |image| + j));
            && (r.Ok? <==> SizeIsWhole(h, j))
            && (r.Ok? ==> r == Ok(View(TornProvenance(h, j), image)))
  {
    ValidateImageReadsTheHeader();
    CommittedFor(ValidateImage, h, manifest, image, j);
  }

  /** The file the writer would leave without discarding first: `n` bytes of the new image over the old one. */
  function Overwritten(h: FrozenHeader, manifest: seq<byte>, before: seq<byte>, image: seq<byte>,
                       n: nat): (r: seq<byte>)
    requires Fits(h, manifest, before) && n <= |image| == |before|
    ensures |r| == h.fileSize
  {
    Patched(Stage(h, manifest, before, Total(manifest, before)), h.arenaOff, image[..n])
  }

  lemma {:induction false} MixtureOpensFor(check: Validator, h: FrozenHeader, manifest: seq<byte>, before: seq<byte>,
                                           image: seq<byte>, n: nat)
    requires Planned(h, manifest, before) && Fits(h, manifest, before)
    requires ReadsTheHeader(check) && check(image).Ok?
    requires |before| == |image| && HEADER_SIZE <= n <= |image|
    ensures OpenedWith(check, Overwritten(h, manifest, before, image, n)) == Ok(View(h, image[..n] + before[n..]))
  {
    var whole := Stage(h, manifest, before, Total(manifest, before));
    var mixed := Overwritten(h, manifest, before, image, n);
    var got := image[..n] + before[n..];
    PlannedFits(h, manifest, before);
    PlanExactlyWhen(|before|, |manifest|, h.provenance);
    StageParts(h, manifest, before, Total(manifest, before));
    TornWhole(HeaderBytes(h));
    MixedImage(whole, mixed, h.arenaOff, before, image, n);
    assert mixed[..FROZEN_HEADER_SIZE] == whole[..FROZEN_HEADER_SIZE];
    assert got[..HEADER_SIZE] == image[..HEADER_SIZE];
    assert check(got) == check(image);
    WholeFileOpens(check, h, mixed, got);
  }

  /**
   Why the file is emptied first. Over a file of the same geometry, an overwrite in place that stops
   anywhere past the image's header leaves a file that opens, on a mixture of the two images.
   */
  lemma {:induction false} WithoutDiscardAMixtureOpens(h: FrozenHeader, manifest: seq<byte>, before: seq<byte>,
                                                       image: seq<byte>, n: nat)
    requires Planned(h, manifest, before) && Fits(h, manifest, before) && ValidateImage(image).Ok?
    requires |before| == |image| && HEADER_SIZE <= n <= |image|
    ensures Opened(Overwritten(h, manifest, before, image, n)) == Ok(View(h, image[..n] + before[n..]))
  {
    ValidateImageReadsTheHeader();
    MixtureOpensFor(ValidateImage, h, manifest, before, image, n);
  }

  lemma {:induction false} MixedImage(whole: seq<byte>, mixed: seq<byte>, off: nat, before: seq<byte>,
                                      image: seq<byte>, n: nat)
    requires n <= |image| == |before| && off + |before| <= |whole| && whole[off..off + |before|] == before
    requires mixed == Patched(whole, off, image[..n])
    ensures mixed[off..off + |before|] == image[..n] + before[n..]
  {
    var got := mixed[off..off + |before|];
    forall i {:trigger got[i]} | 0 <= i < |before| ensures got[i] == (image[..n] + before[n..])[i] {
      assert before[i] == whole[off..off + |before|][i] == whole[off + i];
      assert got[i] == mixed[off + i];
    }
  }
}
