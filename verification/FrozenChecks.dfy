/**
 What an opener makes of any file at all, read off its bytes: which files open, and what each other file
 is refused for. Numbers are those of the format, written out.
 */
module FrozenChecks {
  import opened Layout
  import opened ArenaHeaders
  import opened Bytes
  import opened FrozenFormat

  /** At least a header, and it is a `.tft`: "TFTFROZ" and a zero byte. */
  predicate HasMagic(s: seq<byte>) {
    && |s| >= 128
    && s[0] == 0x54 && s[1] == 0x46 && s[2] == 0x54 && s[3] == 0x46
    && s[4] == 0x52 && s[5] == 0x4F && s[6] == 0x5A && s[7] == 0
  }

  /** Of this format version, and of this build's record layout. */
  predicate HasVersion(s: seq<byte>) {
    HasMagic(s) && Le32(s, 8) == 3
  }

  predicate HasLayout(s: seq<byte>) {
    HasVersion(s) && Le32(s, 12) == 0x3D10_4195
  }

  /** As long as its header says. */
  predicate HasSize(s: seq<byte>) {
    HasLayout(s) && Le64(s, 16) == |s|
  }

  /** The arena starts at a multiple of 2 MiB, and the manifest lies between the header and the arena. */
  predicate HasManifest(s: seq<byte>) {
    && HasSize(s) && Le64(s, 32) % 2_097_152 == 0
    && 128 <= Le32(s, 24) && Le32(s, 24) + Le32(s, 28) <= Le64(s, 32)
  }

  /** The arena is at least its own header, and inside the file. */
  predicate HasArena(s: seq<byte>) {
    HasManifest(s) && 320 <= Le64(s, 40) && Le64(s, 32) + Le64(s, 40) <= |s|
  }

  function ArenaOf(s: seq<byte>): seq<byte>
    requires HasArena(s)
  {
    s[Le64(s, 32)..Le64(s, 32) + Le64(s, 40)]
  }

  lemma {:induction false} MagicBytes(s: seq<byte>)
    requires |s| >= 128
    ensures s[..8] == FROZEN_MAGIC <==> HasMagic(s)
  {
    if s[..8] == FROZEN_MAGIC {
      assert forall i :: 0 <= i < 8 ==> s[i] == s[..8][i] == FROZEN_MAGIC[i];
    }
  }

  /** The header's fields are the numbers at their offsets in the file. */
  lemma {:induction false} FieldsOf(s: seq<byte>)
    requires |s| >= 128
    ensures var h := ParseHeader(s[..128]);
            && h.formatVersion == Le32(s, 8) && h.layoutHash == Le32(s, 12) && h.fileSize == Le64(s, 16)
            && h.manifestOff == Le32(s, 24) && h.manifestLen == Le32(s, 28)
            && h.arenaOff == Le64(s, 32) && h.arenaSize == Le64(s, 40) && h.provenance == s[48..128]
  {
    var raw := s[..128];
    assert forall i :: 0 <= i < 128 ==> raw[i] == s[i];
    assert raw[48..] == s[48..128];
  }

  /** The errors up to the size: each is that of the first thing that is not in order. */
  lemma {:induction false} IdentityRefusals(check: Validator, s: seq<byte>)
    ensures |s| < 128 ==> OpenedWith(check, s) == Err(Truncated)
    ensures |s| >= 128 && !HasMagic(s) ==> OpenedWith(check, s) == Err(BadFrozenMagic)
    ensures HasMagic(s) && !HasVersion(s) ==> OpenedWith(check, s) == Err(FrozenVersionMismatch(Le32(s, 8)))
    ensures HasVersion(s) && !HasLayout(s) ==> OpenedWith(check, s) == Err(FrozenLayoutMismatch(Le32(s, 12)))
    ensures HasLayout(s) && !HasSize(s) ==> OpenedWith(check, s) == Err(FrozenSizeMismatch(|s|, Le64(s, 16)))
  {
    if |s| >= 128 {
      MagicBytes(s);
      FieldsOf(s);
    }
  }

  /** And past it: the extents, and then the arena's own header. */
  lemma {:induction false} ExtentRefusals(check: Validator, s: seq<byte>)
    ensures HasSize(s) && !HasManifest(s) ==> OpenedWith(check, s) == Err(FrozenHeaderInconsistent)
    ensures HasManifest(s) && Le64(s, 40) < 320 ==> OpenedWith(check, s) == Err(Truncated)
    ensures HasManifest(s) && 320 <= Le64(s, 40) && Le64(s, 32) + Le64(s, 40) >= 0x1_0000_0000_0000_0000
            ==> OpenedWith(check, s) == Err(FrozenHeaderInconsistent)
    ensures HasManifest(s) && 320 <= Le64(s, 40) && |s| < Le64(s, 32) + Le64(s, 40) < 0x1_0000_0000_0000_0000
            ==> OpenedWith(check, s) == Err(Truncated)
    ensures HasArena(s) && check(ArenaOf(s)).Err? ==> OpenedWith(check, s) == Err(ArenaRefused(check(ArenaOf(s)).error))
    ensures HasArena(s) && check(ArenaOf(s)).Ok? ==> OpenedWith(check, s) == Ok(View(ParseHeader(s[..128]), ArenaOf(s)))
  {
    if |s| >= 128 {
      MagicBytes(s);
      FieldsOf(s);
    }
  }

  /** A file opens exactly when all of it is in order, and then shows its header and its arena. */
  lemma {:induction false} OpensExactlyWhen(content: seq<byte>)
    ensures Opened(content).Ok? <==> HasArena(content) && ValidateImage(ArenaOf(content)).Ok?
    ensures Opened(content).Ok? ==> Opened(content) == Ok(View(ParseHeader(content[..128]), ArenaOf(content)))
  {
    OpensWithExactlyWhen(ValidateImage, content);
  }

  lemma {:induction false} OpensWithExactlyWhen(check: Validator, s: seq<byte>)
    ensures OpenedWith(check, s).Ok? <==> HasArena(s) && check(ArenaOf(s)).Ok?
    ensures OpenedWith(check, s).Ok? ==> OpenedWith(check, s) == Ok(View(ParseHeader(s[..128]), ArenaOf(s)))
  {
    IdentityRefusals(check, s);
    ExtentRefusals(check, s);
  }

  /** And a file that does not open is refused for the first thing that is not in order. */
  lemma {:induction false} RefusalsNameTheFirstFault(s: seq<byte>)
    ensures |s| < 128 ==> Opened(s) == Err(Truncated)
    ensures |s| >= 128 && !HasMagic(s) ==> Opened(s) == Err(BadFrozenMagic)
    ensures HasMagic(s) && !HasVersion(s) ==> Opened(s) == Err(FrozenVersionMismatch(Le32(s, 8)))
    ensures HasVersion(s) && !HasLayout(s) ==> Opened(s) == Err(FrozenLayoutMismatch(Le32(s, 12)))
    ensures HasLayout(s) && !HasSize(s) ==> Opened(s) == Err(FrozenSizeMismatch(|s|, Le64(s, 16)))
    ensures HasSize(s) && !HasManifest(s) ==> Opened(s) == Err(FrozenHeaderInconsistent)
    ensures HasManifest(s) && Le64(s, 40) < 320 ==> Opened(s) == Err(Truncated)
    ensures HasManifest(s) && 320 <= Le64(s, 40) && Le64(s, 32) + Le64(s, 40) >= 0x1_0000_0000_0000_0000
            ==> Opened(s) == Err(FrozenHeaderInconsistent)
    ensures HasManifest(s) && 320 <= Le64(s, 40) && |s| < Le64(s, 32) + Le64(s, 40) < 0x1_0000_0000_0000_0000
            ==> Opened(s) == Err(Truncated)
    ensures HasArena(s) && ValidateImage(ArenaOf(s)).Err?
            ==> Opened(s) == Err(ArenaRefused(ValidateImage(ArenaOf(s)).error))
  {
    IdentityRefusals(ValidateImage, s);
    ExtentRefusals(ValidateImage, s);
  }

  /** What an arena's own header is refused for, in the order of its checks. */
  lemma {:induction false} ArenaRefusals(h: Header, size: nat)
    ensures h.magic != 0x0045_4552_545F_4654 ==> ValidateArenaHeader(h, size) == Err(BadMagic)
    ensures h.magic == 0x0045_4552_545F_4654 && h.formatVersion != 3
            ==> ValidateArenaHeader(h, size) == Err(VersionMismatch(h.formatVersion))
    ensures h.magic == 0x0045_4552_545F_4654 && h.formatVersion == 3 && h.layoutHash != 0x3D10_4195
            ==> ValidateArenaHeader(h, size) == Err(LayoutMismatch(h.layoutHash))
    ensures h.magic == 0x0045_4552_545F_4654 && h.formatVersion == 3 && h.layoutHash == 0x3D10_4195
            && h.arenaSize != size
            ==> ValidateArenaHeader(h, size) == Err(SizeMismatch(size, h.arenaSize))
    ensures h.magic == 0x0045_4552_545F_4654 && h.formatVersion == 3 && h.layoutHash == 0x3D10_4195
            && h.arenaSize == size
            ==> ValidateArenaHeader(h, size) == Ok(()) || ValidateArenaHeader(h, size) == Err(HeaderInconsistent)
  {
  }
}
