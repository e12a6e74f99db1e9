/** The `.tft` container: its 128-byte header, what a writer plans, and what an opener accepts. */
module FrozenFormat {
  import opened Layout
  import opened ArenaHeaders
  import opened Bytes

  const FROZEN_HEADER_SIZE := 128
  const ARENA_FILE_ALIGN := 0x20_0000
  const PROVENANCE_SIZE := 80
  const FROZEN_MAGIC: seq<byte> := [0x54, 0x46, 0x54, 0x46, 0x52, 0x4F, 0x5A, 0]

  /** `provenance` is the tail no check reads: digest, creation time, tool version, reserved. */
  datatype FrozenHeader = FrozenHeader(
    formatVersion: u32,
    layoutHash: u32,
    fileSize: u64,
    manifestOff: u32,
    manifestLen: u32,
    arenaOff: u64,
    arenaSize: u64,
    provenance: seq<byte>)

  datatype FrozenError =
    | Io
    | Map
    | Truncated
    | BadFrozenMagic
    | FrozenVersionMismatch(found: u32)
    | FrozenLayoutMismatch(found: u32)
    | FrozenHeaderInconsistent
    | FrozenSizeMismatch(actual: nat, expected: u64)
    | ArenaRefused(why: ShmError)

  /** An opened file: its header, the image it maps, and the manifest it will read. */
  datatype View = View(header: FrozenHeader, image: seq<byte>)

  // ---------------------------------------------------------------------------------------------
  // The header on disk
  // ---------------------------------------------------------------------------------------------

  function HeaderBytes(h: FrozenHeader): (r: seq<byte>)
    requires |h.provenance| == PROVENANCE_SIZE
    ensures |r| == FROZEN_HEADER_SIZE
  {
    FROZEN_MAGIC + ToLe32(h.formatVersion) + ToLe32(h.layoutHash) + ToLe64(h.fileSize) + ToLe32(h.manifestOff)
    + ToLe32(h.manifestLen) + ToLe64(h.arenaOff) + ToLe64(h.arenaSize) + h.provenance
  }

  function ParseHeader(raw: seq<byte>): (h: FrozenHeader)
    requires |raw| == FROZEN_HEADER_SIZE
    ensures |h.provenance| == PROVENANCE_SIZE
  {
    FrozenHeader(Le32(raw, 8), Le32(raw, 12), Le64(raw, 16), Le32(raw, 24), Le32(raw, 28), Le64(raw, 32), Le64(raw, 40),
                 raw[48..])
  }

  lemma {:induction false} HeaderFieldsAt(h: FrozenHeader)
    requires |h.provenance| == PROVENANCE_SIZE
    ensures var b := HeaderBytes(h);
            && b[..8] == FROZEN_MAGIC && b[8..12] == ToLe32(h.formatVersion) && b[12..16] == ToLe32(h.layoutHash)
            && b[16..24] == ToLe64(h.fileSize)
            && b[24..28] == ToLe32(h.manifestOff) && b[28..32] == ToLe32(h.manifestLen)
            && b[32..40] == ToLe64(h.arenaOff) && b[40..48] == ToLe64(h.arenaSize) && b[48..] == h.provenance
  {
  }

  lemma {:induction false} HeaderRoundTrip(h: FrozenHeader)
    requires |h.provenance| == PROVENANCE_SIZE
    ensures ParseHeader(HeaderBytes(h)) == h && HeaderBytes(h)[..8] == FROZEN_MAGIC
  {
    var b := HeaderBytes(h);
    HeaderFieldsAt(h);
    HeaderFields32(h, b);
    HeaderFields64(h, b);
  }

  lemma {:induction false} HeaderFields32(h: FrozenHeader, b: seq<byte>)
    requires |b| == FROZEN_HEADER_SIZE
    requires b[8..12] == ToLe32(h.formatVersion) && b[12..16] == ToLe32(h.layoutHash)
    requires b[24..28] == ToLe32(h.manifestOff) && b[28..32] == ToLe32(h.manifestLen)
    ensures Le32(b, 8) == h.formatVersion && Le32(b, 12) == h.layoutHash
    ensures Le32(b, 24) == h.manifestOff && Le32(b, 28) == h.manifestLen
  {
    Le32At(b, 8, h.formatVersion);
    Le32At(b, 12, h.layoutHash);
    Le32At(b, 24, h.manifestOff);
    Le32At(b, 28, h.manifestLen);
  }

  lemma {:induction false} HeaderFields64(h: FrozenHeader, b: seq<byte>)
    requires |b| == FROZEN_HEADER_SIZE
    requires b[16..24] == ToLe64(h.fileSize) && b[32..40] == ToLe64(h.arenaOff) && b[40..48] == ToLe64(h.arenaSize)
    ensures Le64(b, 16) == h.fileSize && Le64(b, 32) == h.arenaOff && Le64(b, 40) == h.arenaSize
  {
    Le64At(b, 16, h.fileSize);
    Le64At(b, 32, h.arenaOff);
    Le64At(b, 40, h.arenaSize);
  }

  lemma {:induction false} Le32At(b: seq<byte>, at: nat, n: u32)
    requires at + 4 <= |b| && b[at..at + 4] == ToLe32(n)
    ensures Le32(b, at) == n
  {
    Le32RoundTrip(n);
    assert ToLe32(n)[0..4] == ToLe32(n);
    Le32Moves(b, at, ToLe32(n), 0);
  }

  lemma {:induction false} Le64At(b: seq<byte>, at: nat, n: u64)
    requires at + 8 <= |b| && b[at..at + 8] == ToLe64(n)
    ensures Le64(b, at) == n
  {
    Le64RoundTrip(n);
    assert ToLe64(n)[0..8] == ToLe64(n);
    Le64Moves(b, at, ToLe64(n), 0);
  }

  // ---------------------------------------------------------------------------------------------
  // Opening
  // ---------------------------------------------------------------------------------------------

  /** The header at the base of an arena image. */
  function ImageHeader(image: seq<byte>): Header
    requires |image| >= HEADER_SIZE
  {
    Header(Le64(image, 0), Le32(image, 8), Le32(image, 12), Le64(image, 16), Le32(image, 24), Le32(image, 28),
           Le32(image, 32), Le32(image, 36), Le32(image, 40), Le32(image, 44), Le32(image, 48), Le32(image, 52),
           Le32(image, 56), Le32(image, 60), Le32(image, 64), Le32(image, 68), Le32(image, 72), Le32(image, 76),
           Le32(image, 152), Le32(image, 156))
  }

  /** A check of an arena image by its header. */
  type Validator = seq<byte> -> Result<(), ShmError>

  /** The one the opener runs; the extents have been checked, so the image is at least a header long. */
  function ValidateImage(image: seq<byte>): Result<(), ShmError> {
    if |image| < HEADER_SIZE then Err(HeaderInconsistent) else ValidateArenaHeader(ImageHeader(image), |image|)
  }

  /** An image that passes names its own size, and only its header counts. */
  ghost predicate ReadsTheHeader(check: Validator) {
    && (forall image {:trigger check(image)} :: check(image).Ok? ==>
          HEADER_SIZE <= |image| && Le64(image, 16) == |image|)
    && (forall a, b {:trigger check(a), check(b)} ::
          |a| == |b| >= HEADER_SIZE && a[..HEADER_SIZE] == b[..HEADER_SIZE] ==> check(a) == check(b))
  }

  lemma {:induction false} SameImageHeader(a: seq<byte>, b: seq<byte>)
    requires |a| >= HEADER_SIZE && |b| >= HEADER_SIZE && a[..HEADER_SIZE] == b[..HEADER_SIZE]
    ensures ImageHeader(a) == ImageHeader(b)
  {
    assert forall i {:trigger a[i]} ::
        0 <= i < HEADER_SIZE ==> a[i] == a[..HEADER_SIZE][i] == b[..HEADER_SIZE][i] == b[i];
  }

  lemma {:induction false} PassedNamesItsSize(image: seq<byte>)
    ensures ValidateImage(image).Ok? ==> HEADER_SIZE <= |image| && Le64(image, 16) == |image|
  {
  }

  lemma {:induction false} ValidateImageReadsTheHeader()
    ensures ReadsTheHeader(ValidateImage)
  {
    forall image {:trigger ValidateImage(image)}
      ensures ValidateImage(image).Ok? ==> HEADER_SIZE <= |image| && Le64(image, 16) == |image|
    {
      PassedNamesItsSize(image);
    }
    forall a, b {:trigger ValidateImage(a), ValidateImage(b)}
      | |a| == |b| >= HEADER_SIZE && a[..HEADER_SIZE] == b[..HEADER_SIZE]
      ensures ValidateImage(a) == ValidateImage(b)
    {
      SameImageHeader(a, b);
    }
  }

  function CheckExtents(h: FrozenHeader): Result<(), FrozenError> {
    if h.arenaOff % ARENA_FILE_ALIGN != 0 then Err(FrozenHeaderInconsistent)
    else if h.manifestOff < FROZEN_HEADER_SIZE then Err(FrozenHeaderInconsistent)
    else if h.manifestOff + h.manifestLen > U64_MAX then Err(FrozenHeaderInconsistent)
    else if h.manifestOff + h.manifestLen > h.arenaOff then Err(FrozenHeaderInconsistent)
    else if h.arenaSize < HEADER_SIZE then Err(Truncated)
    else if h.arenaOff + h.arenaSize > U64_MAX then Err(FrozenHeaderInconsistent)
    else if h.arenaOff + h.arenaSize > h.fileSize then Err(Truncated)
    else Ok(())
  }

  /** The checks made on the container header of a file of `actual` bytes. */
  function CheckContainer(magic: seq<byte>, h: FrozenHeader, actual: nat): (r: Result<(), FrozenError>)
    ensures r.Ok? ==> h.fileSize == actual && h.arenaOff + h.arenaSize <= actual
  {
    if magic != FROZEN_MAGIC then Err(BadFrozenMagic)
    else if h.formatVersion != FORMAT_VERSION then Err(FrozenVersionMismatch(h.formatVersion))
    else if h.layoutHash != LAYOUT_HASH then Err(FrozenLayoutMismatch(h.layoutHash))
    else if h.fileSize != actual then Err(FrozenSizeMismatch(actual, h.fileSize))
    else CheckExtents(h)
  }

  /** What opening a file that holds `content` decides, when every system call does its work. */
  function OpenedWith(check: Validator, content: seq<byte>): Result<View, FrozenError> {
    if |content| < FROZEN_HEADER_SIZE then Err(Truncated)
    else
      var h := ParseHeader(content[..FROZEN_HEADER_SIZE]);
      match CheckContainer(content[..8], h, |content|)
      case Err(e) => Err(e)
      case Ok(_) =>
        var image := content[h.arenaOff..h.arenaOff + h.arenaSize];
        match check(image)
        case Err(e) => Err(ArenaRefused(e))
        case Ok(_) => Ok(View(h, image))
  }

  function Opened(content: seq<byte>): Result<View, FrozenError> {
    OpenedWith(ValidateImage, content)
  }

  /** The manifest an opened file reads. */
  function ManifestOf(content: seq<byte>, h: FrozenHeader): seq<byte>
    requires h.manifestOff + h.manifestLen <= |content|
  {
    content[h.manifestOff..h.manifestOff + h.manifestLen]
  }

  // ---------------------------------------------------------------------------------------------
  // Planning
  // ---------------------------------------------------------------------------------------------

  function RoundUp(n: nat): (r: nat)
    ensures r % ARENA_FILE_ALIGN == 0 && n <= r < n + ARENA_FILE_ALIGN
  {
    (n + ARENA_FILE_ALIGN - 1) / ARENA_FILE_ALIGN * ARENA_FILE_ALIGN
  }

  /** The rounding multiplies unchecked, so near the top of `u64` it wraps. */
  function PlanHeader(arenaSize: u64, manifestLen: u64, provenance: seq<byte>): Result<FrozenHeader, FrozenError> {
    if FROZEN_HEADER_SIZE + manifestLen > U64_MAX then Err(FrozenHeaderInconsistent)
    else
      var arenaOff := RoundUp(FROZEN_HEADER_SIZE + manifestLen) % (U64_MAX + 1);
      if arenaOff + arenaSize > U64_MAX || manifestLen > U32_MAX then Err(FrozenHeaderInconsistent)
      else Ok(FrozenHeader(FORMAT_VERSION, LAYOUT_HASH, arenaOff + arenaSize, FROZEN_HEADER_SIZE, manifestLen, arenaOff,
                           arenaSize, provenance))
  }

  /**
   A header is planned exactly when the manifest's length fits 32 bits and the file's size 64. It
   satisfies the opener's extent checks exactly when the arena is at least its own header.
   */
  lemma {:induction false} PlanExactlyWhen(arenaSize: u64, manifestLen: u64, provenance: seq<byte>)
    ensures PlanHeader(arenaSize, manifestLen, provenance).Ok? <==>
            manifestLen <= U32_MAX && RoundUp(FROZEN_HEADER_SIZE + manifestLen) + arenaSize <= U64_MAX
    ensures PlanHeader(arenaSize, manifestLen, provenance).Ok? ==>
            var h := PlanHeader(arenaSize, manifestLen, provenance).value;
            && (CheckExtents(h) == Ok(()) <==> arenaSize >= HEADER_SIZE)
            && FROZEN_HEADER_SIZE + manifestLen <= h.arenaOff < FROZEN_HEADER_SIZE + manifestLen + ARENA_FILE_ALIGN
            && h.fileSize == h.arenaOff + arenaSize
  {
  }

  /** The header a writer plans for this image and manifest. */
  predicate Planned(h: FrozenHeader, manifest: seq<byte>, image: seq<byte>) {
    && |h.provenance| == PROVENANCE_SIZE
    && |image| <= U64_MAX && |manifest| <= U64_MAX
    && PlanHeader(|image|, |manifest|, h.provenance) == Ok(h)
  }
}
