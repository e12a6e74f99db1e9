/** `freeze_to`: write to a sibling temporary, rename it over the target once its header is down. */
module Freeze {
  import opened Options
  import opened Layout
  import opened Bytes
  import opened ArenaHeaders
  import opened FrozenFormat
  import opened FrozenCrash
  import opened FrozenFiles

  function Decimal(n: nat): (r: string)
    ensures |r| > 0
  {
    if n < 10 then [(n as char) + '0'] else Decimal(n / 10) + [((n % 10) as char) + '0']
  }

  /** The number a string of digits stands for. */
  function NumberOf(s: string): int {
    if s == [] then 0 else 10 * NumberOf(s[..|s| - 1]) + (s[|s| - 1] as int - '0' as int)
  }

  lemma {:induction false} DecimalDigits(n: nat)
    ensures forall i :: 0 <= i < |Decimal(n)| ==> '0' <= Decimal(n)[i] <= '9'
    ensures NumberOf(Decimal(n)) == n
    decreases n
  {
    if n >= 10 {
      DecimalDigits(n / 10);
      assert Decimal(n)[..|Decimal(n)| - 1] == Decimal(n / 10);
    } else {
      assert Decimal(n)[..0] == [];
    }
  }

  /** Where the first character that is not a digit stands, two strings that begin with digits agree. */
  lemma {:induction false} SameHead(a: string, x: string, b: string, y: string)
    requires a + "." + x == b + "." + y
    requires forall i :: 0 <= i < |a| ==> a[i] != '.'
    requires forall i :: 0 <= i < |b| ==> b[i] != '.'
    ensures a == b && x == y
  {
    var whole := a + "." + x;
    assert whole[|a|] == '.' && whole[|b|] == '.';
    assert forall i :: 0 <= i < |a| ==> whole[i] == a[i];
    assert forall i :: 0 <= i < |b| ==> whole[i] == b[i];
    assert |a| == |b|;
    assert whole[..|a|] == a && whole[..|b|] == b;
    assert whole[|a| + 1..] == x && whole[|b| + 1..] == y;
  }

  function TempSibling(stem: string, pid: nat, counter: nat): string {
    "." + stem + ".tmp." + Decimal(pid) + "." + Decimal(counter)
  }

  lemma {:induction false} TempIsNotTheTarget(stem: string, pid: nat, counter: nat)
    ensures TempSibling(stem, pid, counter) != stem
  {
    assert |TempSibling(stem, pid, counter)| > |stem|;
  }

  /** The dot comes first, and no two processes, and no two calls of one, use the same temporary. */
  lemma {:induction false} TempsDiffer(stem: string, pid: nat, counter: nat, pid': nat, counter': nat)
    requires TempSibling(stem, pid, counter) == TempSibling(stem, pid', counter')
    ensures pid == pid' && counter == counter' && TempSibling(stem, pid, counter)[0] == '.'
  {
    var head := "." + stem + ".tmp.";
    var tail, tail' := Decimal(pid) + "." + Decimal(counter), Decimal(pid') + "." + Decimal(counter');
    assert TempSibling(stem, pid, counter) == head + tail && TempSibling(stem, pid', counter') == head + tail';
    assert (head + tail)[|head|..] == tail && (head + tail')[|head|..] == tail';
    DecimalDigits(pid);
    DecimalDigits(pid');
    DecimalDigits(counter);
    DecimalDigits(counter');
    SameHead(Decimal(pid), Decimal(counter), Decimal(pid'), Decimal(counter'));
  }

  datatype Freezing = Frozen(header: FrozenHeader) | PathRefused | WriteFailed(error: FrozenError) | Killed

  /** What becomes of the rename: a process can die in the call before or after it takes effect. */
  datatype Renaming = Renamed | RenameRefused | DiedBefore | DiedAfter

  /** The kernel fails nothing, and has an answer to every call and a transfer for every byte. */
  predicate Suffices(kernel: Kernel, image: seq<byte>, manifest: seq<byte>) {
    Helpful(kernel) && Moves(kernel.replies) >= Total(manifest, image) && |kernel.answers| >= 3
  }

  /** The temporary's own file, from its creation to the end of the write. */
  method WriteTemporary(image: seq<byte>, manifest: seq<byte>, provenance: seq<byte>, kernel: Kernel)
    returns (content: seq<byte>, r: Outcome<FrozenHeader>)
    requires |image| <= U64_MAX && |manifest| <= U64_MAX && |provenance| == PROVENANCE_SIZE
    ensures PlanHeader(|image|, |manifest|, provenance).Err? ==>
              r == Failed(PlanHeader(|image|, |manifest|, provenance).error)
    ensures PlanHeader(|image|, |manifest|, provenance).Ok? && Suffices(kernel, image, manifest) ==> r.Done?
    ensures r.Done? ==> PlanHeader(|image|, |manifest|, provenance) == Ok(r.value)
    ensures r.Done? && ValidateImage(image).Ok? ==> Shows(content, r.value, manifest, image)
  {
    var file := new File(kernel.replies, kernel.answers);
    r := file.WriteFrozen(image, manifest, provenance);
    content := file.content;
    if r.Done? && ValidateImage(image).Ok? {
      CompleteFileOpens(r.value, manifest, image);
    }
  }

  /** The directory the target is in. */
  class Directory {
    var files: map<string, seq<byte>>

    constructor ()
      ensures files == map[]
    {
      files := map[];
    }

    /**
     `created` and `removed` say whether those calls succeed; `None` is death in the call. Whatever
     happens, the target is what it was or opens on the new image and manifest: what it was if the call
     fails, the new one if it succeeds, and either if the process is killed. No other name but the
     temporary's changes, and after a failure the temporary is gone unless its removal failed.
     */
    method FreezeTo(path: string, pid: nat, counter: nat, image: seq<byte>, manifest: seq<byte>, provenance: seq<byte>,
                    kernel: Kernel, created: Option<bool>, renamed: Renaming, removed: Option<bool>)
      returns (r: Freezing)
      requires |image| <= U64_MAX && |manifest| <= U64_MAX && |provenance| == PROVENANCE_SIZE
      modifies this
      ensures var tmp := TempSibling(path, pid, counter);
              && tmp != path
              && (forall q :: q != path && q != tmp ==> SameAt(files, old(files), q))
              && (r.WriteFailed? || r.PathRefused? ==> SameAt(files, old(files), path))
              && (r.Killed? ==> SameAt(files, old(files), path)
                                || Replaced(files, path, tmp, image, manifest, provenance))
              && (r.Frozen? ==> Replaced(files, path, tmp, image, manifest, provenance)
                                && r.header == PlanHeader(|image|, |manifest|, provenance).value)
              && (created == Some(true) && removed == Some(true) && (r.WriteFailed? || r.PathRefused?)
                  ==> tmp !in files)
      ensures created == None ==> r.Killed? && files == old(files)
      ensures created == Some(false) ==> r.PathRefused? && files == old(files)
      ensures created == Some(true) && PlanHeader(|image|, |manifest|, provenance).Err? ==>
                r == if removed == None then Killed else WriteFailed(PlanHeader(|image|, |manifest|, provenance).error)
      ensures created == Some(true) && PlanHeader(|image|, |manifest|, provenance).Ok?
              && Suffices(kernel, image, manifest) ==>
                match renamed
                case Renamed => r.Frozen?
                case RenameRefused => r == if removed == None then Killed else PathRefused
                case _ => r.Killed?
    {
      var tmp := TempSibling(path, pid, counter);
      TempIsNotTheTarget(path, pid, counter);
      if created != Some(true) {
        return if created == None then Killed else PathRefused;
      }
      files := files[tmp := []];
      var content, written := WriteTemporary(image, manifest, provenance, kernel);
      files := files[tmp := content];
      if written.Died? {
        return Killed;
      }
      if written.Done? && renamed.DiedBefore? {
        return Killed;
      }
      if written.Done? && (renamed.Renamed? || renamed.DiedAfter?) {
        files := (files - {tmp})[path := content];
        return if renamed.Renamed? then Frozen(written.value) else Killed;
      }
      if removed == None {
        return Killed;
      }
      if removed == Some(true) {
        files := files - {tmp};
      }
      r := if written.Done? then PathRefused else WriteFailed(written.error);
    }
  }

  /** The target is the new file: complete, and in place of the temporary. */
  predicate Replaced(files: map<string, seq<byte>>, path: string, tmp: string, image: seq<byte>, manifest: seq<byte>,
                     provenance: seq<byte>) {
    && |image| <= U64_MAX && |manifest| <= U64_MAX && |provenance| == PROVENANCE_SIZE
    && PlanHeader(|image|, |manifest|, provenance).Ok?
    && tmp !in files && path in files
    && (ValidateImage(image).Ok? ==>
          Shows(files[path], PlanHeader(|image|, |manifest|, provenance).value, manifest, image))
  }

  predicate SameAt(now: map<string, seq<byte>>, before: map<string, seq<byte>>, q: string) {
    (q in now <==> q in before) && (q in now ==> now[q] == before[q])
  }

  /** The file opens on this image, and reads this manifest. */
  predicate Shows(content: seq<byte>, h: FrozenHeader, manifest: seq<byte>, image: seq<byte>) {
    && Opened(content) == Ok(View(h, image))
    && h.manifestOff + h.manifestLen <= |content| && ManifestOf(content, h) == manifest
  }
}
