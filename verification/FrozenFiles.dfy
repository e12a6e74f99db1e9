/**
 The system calls a `.tft` is written and read with, and the loops around them. What the kernel will
 answer is two lists, one for `pread` and `pwrite` and one for the calls that only succeed or fail; when
 a list is used up, the process dies inside the call.
 */
module FrozenFiles {
  import opened Options
  import opened Layout
  import opened ArenaHeaders
  import opened Bytes
  import opened FrozenFormat
  import opened FrozenCrash

  const SNAPSHOT_CHUNK := 0x1_0000

  datatype Reply = Moved(n: nat) | Intr | Refused

  datatype Outcome<+T> = Done(value: T) | Failed(error: FrozenError) | Died

  /** Nothing but interruptions and short transfers. */
  predicate Willing(replies: seq<Reply>) {
    forall i :: 0 <= i < |replies| ==> replies[i] == Intr || (replies[i].Moved? && replies[i].n > 0)
  }

  /** Every call that only succeeds or fails succeeds. */
  predicate Granting(answers: seq<bool>) {
    forall i :: 0 <= i < |answers| ==> answers[i]
  }

  function Least(a: nat, b: nat): nat {
    if a < b then a else b
  }

  /** How a loop of transfers ends: all bytes moved, an error, nothing more to move, or the process dead. */
  datatype Fate = Whole | Broken | Short | Dead

  datatype Transfer = Transfer(moved: nat, rest: seq<Reply>, fate: Fate)

  /**
   What becomes of `n` bytes, of which the file has `avail`: an interruption is asked again, an error or
   an empty transfer ends it, and a short transfer goes on behind what has moved.
   */
  function Transferred(replies: seq<Reply>, n: nat, avail: nat): (t: Transfer)
    ensures t.moved <= n && (t.fate == Whole <==> t.moved == n)
    ensures t.fate == Dead ==> t.rest == []
    decreases |replies|
  {
    if n == 0 then Transfer(0, replies, Whole)
    else if replies == [] then Transfer(0, [], Dead)
    else match replies[0]
      case Intr => Transferred(replies[1..], n, avail)
      case Refused => Transfer(0, replies[1..], Broken)
      case Moved(k) =>
        var m := Least(Least(k, n), avail);
        if m == 0 then Transfer(0, replies[1..], Short)
        else
          var t := Transferred(replies[1..], n - m, avail - m);
          t.(moved := t.moved + m)
  }

  /** How many transfers the kernel will make before it has nothing more to say. */
  function Moves(replies: seq<Reply>): nat {
    if replies == [] then 0 else (if replies[0].Moved? then 1 else 0) + Moves(replies[1..])
  }

  lemma {:induction false} WillingTail(replies: seq<Reply>)
    requires Willing(replies) && replies != []
    ensures Willing(replies[1..]) && !replies[0].Refused? && (replies[0].Moved? ==> replies[0].n > 0)
  {
    assert forall i :: 0 <= i < |replies[1..]| ==> replies[1..][i] == replies[i + 1];
  }

  /** A willing kernel stops nothing but a read past the end of what there is. */
  lemma {:induction false} WillingEnds(replies: seq<Reply>, n: nat, avail: nat)
    requires Willing(replies)
    ensures var t := Transferred(replies, n, avail);
            && Willing(t.rest) && t.fate != Broken && (t.fate == Short ==> t.moved == avail < n)
            && (t.fate == Whole && n > 0 ==> n <= avail)
    decreases |replies|
  {
    if n > 0 && replies != [] {
      WillingTail(replies);
      FirstReply(replies, n, avail);
      if replies[0].Intr? {
        WillingEnds(replies[1..], n, avail);
      } else {
        var m := Least(Least(replies[0].n, n), avail);
        WillingEnds(replies[1..], n - m, avail - m);
      }
    }
  }

  /** And it takes at most one transfer a byte, and one more to stop. */
  lemma {:induction false} WillingMoves(replies: seq<Reply>, n: nat, avail: nat)
    requires Willing(replies)
    ensures var t := Transferred(replies, n, avail);
            && Moves(replies) <= Moves(t.rest) + t.moved + (if t.fate == Short then 1 else 0)
            && (t.fate == Dead ==> Moves(replies) <= t.moved < n)
    decreases |replies|
  {
    if n > 0 && replies != [] {
      WillingTail(replies);
      FirstReply(replies, n, avail);
      if replies[0].Intr? {
        WillingMoves(replies[1..], n, avail);
      } else {
        var m := Least(Least(replies[0].n, n), avail);
        WillingMoves(replies[1..], n - m, avail - m);
      }
    }
  }

  lemma {:induction false} MovedIsThere(replies: seq<Reply>, n: nat, avail: nat)
    ensures Transferred(replies, n, avail).moved <= avail
    decreases |replies|
  {
    if n > 0 && replies != [] {
      FirstReply(replies, n, avail);
      if replies[0].Intr? {
        MovedIsThere(replies[1..], n, avail);
      } else if replies[0].Moved? {
        var m := Least(Least(replies[0].n, n), avail);
        MovedIsThere(replies[1..], n - m, avail - m);
      }
    }
  }

  /** So a transfer of no more than there is fails only if the process dies, for want of transfers. */
  lemma {:induction false} WillingTransfers(replies: seq<Reply>, n: nat, avail: nat)
    requires Willing(replies)
    ensures var t := Transferred(replies, n, avail);
            && Willing(t.rest) && Moves(replies) <= Moves(t.rest) + t.moved + (if t.fate == Short then 1 else 0)
            && t.fate != Broken && (t.fate == Short ==> t.moved == avail < n)
            && (t.fate == Dead ==> Moves(replies) < n)
            && (avail < n && Moves(replies) > avail ==> t.fate == Short)
  {
    WillingEnds(replies, n, avail);
    WillingMoves(replies, n, avail);
    MovedIsThere(replies, n, avail);
  }

  /** The bytes are the file's, from `off` on. */
  predicate Shows(content: seq<byte>, off: nat, buf: seq<byte>) {
    buf != [] ==> off + |buf| <= |content| && buf == content[off..off + |buf|]
  }

  lemma {:induction false} ReadOn(content: seq<byte>, off: nat, buf: seq<byte>, data: seq<byte>)
    requires Shows(content, off, buf) && Shows(content, off + |buf|, data)
    ensures Shows(content, off, buf + data)
  {
  }

  /** The first reply decides how a transfer of at least one byte goes on. */
  lemma {:induction false} FirstReply(replies: seq<Reply>, n: nat, avail: nat)
    requires n > 0 && replies != []
    ensures var t := Transferred(replies, n, avail);
            match replies[0]
            case Intr => t == Transferred(replies[1..], n, avail)
            case Refused => t == Transfer(0, replies[1..], Broken)
            case Moved(k) =>
              var m := Least(Least(k, n), avail);
              if m == 0 then t == Transfer(0, replies[1..], Short)
              else Goes(t, Transferred(replies[1..], n - m, avail - m), m)
  {
  }

  /** `whole` is `rest` with `done` bytes moved before it. */
  predicate Goes(whole: Transfer, rest: Transfer, done: nat) {
    whole == rest.(moved := rest.moved + done)
  }

  /** One more reply, after which `more` bytes have moved where `got` had. */
  lemma {:induction false} Advances(first: seq<Reply>, now: seq<Reply>, n: nat, avail: nat, got: nat, more: nat)
    requires got < n && got <= avail && now != []
    requires Goes(Transferred(first, n, avail), Transferred(now, n - got, avail - got), got)
    requires now[0] == Intr ==> more == got
    requires now[0].Moved? ==> got < more == got + Least(Least(now[0].n, n - got), avail - got)
    requires !now[0].Refused?
    ensures Goes(Transferred(first, n, avail), Transferred(now[1..], n - more, avail - more), more)
  {
    FirstReply(now, n - got, avail - got);
  }

  /** The last reply, or none. */
  lemma {:induction false} Ends(first: seq<Reply>, now: seq<Reply>, n: nat, avail: nat, got: nat, fate: Fate)
    requires got < n && got <= avail
    requires Goes(Transferred(first, n, avail), Transferred(now, n - got, avail - got), got)
    requires now == [] ==> fate == Dead
    requires now != [] ==> now[0] != Intr && fate == if now[0].Refused? then Broken else Short
    requires now != [] && now[0].Moved? ==> Least(Least(now[0].n, n - got), avail - got) == 0
    ensures Transferred(first, n, avail).fate == fate
    ensures Transferred(first, n, avail).rest == if now == [] then [] else now[1..]
  {
    if now != [] {
      FirstReply(now, n - got, avail - got);
    }
  }

  /** What a call returns at the end of its loop, an empty transfer being the error `short`. */
  predicate EndsAs<T>(fate: Fate, r: Outcome<T>, short: FrozenError) {
    match fate
    case Whole => r.Done?
    case Broken => r == Failed(Io)
    case Short => r == Failed(short)
    case Dead => r.Died?
  }

  /** `n` offsets from `off` on. */
  function Offsets(off: nat, n: nat): (r: seq<nat>)
    ensures |r| == n
  {
    seq(n, i requires 0 <= i < n => off + i)
  }

  lemma {:induction false} OffsetsJoin(before: seq<nat>, off: nat, n: nat, m: nat)
    ensures before + Offsets(off, n) + Offsets(off + n, m) == before + Offsets(off, n + m)
  {
  }

  /** One answer is used: it decides, and without one the process dies. */
  predicate Plainly<T>(before: seq<bool>, after: seq<bool>, r: Outcome<T>, error: FrozenError) {
    if before == [] then r.Died? && after == []
    else after == before[1..] && (if before[0] then r.Done? else r == Failed(error))
  }

  /**
   What a willing kernel's replies come to over `n` bytes: nothing fails, at most one transfer a byte is
   used, and the process dies only for want of them.
   */
  predicate Spent<T>(before: seq<Reply>, after: seq<Reply>, n: nat, r: Outcome<T>) {
    Willing(before) ==> Willing(after) && !r.Failed? && Moves(before) <= Moves(after) + n
                        && (r.Died? ==> Moves(before) < n)
  }

  /** The same of a step that moves `n` bytes and makes `c` calls that only succeed or fail. */
  predicate Served<T>(replies: seq<Reply>, answers: seq<bool>, replies': seq<Reply>, answers': seq<bool>,
                      n: nat, c: nat, r: Outcome<T>) {
    Willing(replies) && Granting(answers) ==>
      && Willing(replies') && Granting(answers') && !r.Failed?
      && Moves(replies) <= Moves(replies') + n && |answers| <= |answers'| + c
      && (r.Died? ==> Moves(replies) < n || |answers| < c)
  }

  lemma {:induction false} SpentBy<T>(before: seq<Reply>, n: nat, avail: nat, r: Outcome<T>, short: FrozenError)
    requires n <= avail && EndsAs(Transferred(before, n, avail).fate, r, short)
    ensures Spent(before, Transferred(before, n, avail).rest, n, r)
  {
    if Willing(before) {
      WillingTransfers(before, n, avail);
    }
  }

  class File {
    var content: seq<byte>
    var replies: seq<Reply>           // to `pread` and `pwrite`
    var answers: seq<bool>            // to the calls that only succeed or fail
    ghost var wrote: seq<nat>         // every offset a byte was written to, in order

    constructor (replies: seq<Reply>, answers: seq<bool>)
      ensures content == [] && this.replies == replies && this.answers == answers
    {
      content := [];
      this.replies, this.answers := replies, answers;
      wrote := [];
    }

    // -------------------------------------------------------------------------------------------
    // The kernel
    // -------------------------------------------------------------------------------------------

    /** The next answer; none once the process is dead. */
    method Ask() returns (r: Option<Reply>)
      modifies this`replies
      ensures old(replies) == [] ==> r == None && replies == []
      ensures old(replies) != [] ==> r == Some(old(replies)[0]) && replies == old(replies)[1..]
    {
      if replies == [] {
        return None;
      }
      r := Some(replies[0]);
      replies := replies[1..];
    }

    method Pwrite(buf: seq<byte>, off: nat) returns (r: Option<Reply>)
      requires off + |buf| <= |content|
      modifies this`content, this`replies, this`wrote
      ensures r == None ==> replies == old(replies) == [] && content == old(content)
      ensures r.Some? ==> old(replies) != [] && replies == old(replies)[1..]
      ensures r.Some? && !r.value.Moved? ==> content == old(content) && r.value == old(replies)[0]
      ensures r.Some? && r.value.Moved? ==>
                && old(replies)[0].Moved? && r.value.n == Least(old(replies)[0].n, |buf|)
                && content == Patched(old(content), off, buf[..r.value.n])
      ensures wrote == old(wrote) + (if r.Some? && r.value.Moved? then Offsets(off, r.value.n) else [])
    {
      var answer := Ask();
      if answer == None || !answer.value.Moved? {
        return answer;
      }
      var n := Least(answer.value.n, |buf|);
      content := Patched(content, off, buf[..n]);
      wrote := wrote + Offsets(off, n);
      r := Some(Moved(n));
    }

    method Pread(len: nat, off: nat) returns (r: Option<Reply>, data: seq<byte>)
      modifies this`replies
      ensures r == None ==> replies == old(replies) == []
      ensures r.Some? ==> old(replies) != [] && replies == old(replies)[1..]
      ensures r.Some? && !r.value.Moved? ==> r.value == old(replies)[0]
      ensures r.Some? && r.value.Moved? ==>
                && old(replies)[0].Moved?
                && |data| == r.value.n == Least(Least(old(replies)[0].n, len), Left(off))
                && (data != [] ==> off + |data| <= |content| && data == content[off..off + |data|])
    {
      data := [];
      var answer := Ask();
      if answer == None || !answer.value.Moved? {
        return answer, data;
      }
      var n := if off < |content| then Least(Least(answer.value.n, len), |content| - off) else 0;
      data := if n == 0 then [] else content[off..off + n];
      r := Some(Moved(n));
    }

    /** How many bytes the file has from `off` on. */
    function Left(off: nat): nat
      reads this`content
    {
      if off < |content| then |content| - off else 0
    }

    method Truncate(size: nat) returns (r: Outcome<()>)
      modifies this`content, this`answers
      ensures Plainly(old(answers), answers, r, Io)
      ensures r.Done? ==> content == if size <= |old(content)| then old(content)[..size]
                                           else old(content) + Zeros(size - |old(content)|)
      ensures !r.Done? ==> content == old(content)
    {
      r := Plain(Io);
      if r.Done? {
        content := if size <= |content| then content[..size] else content + Zeros(size - |content|);
      }
    }

    /** A call that only succeeds or fails: `ftruncate`, `fdatasync`, `fstat`, `mmap`. */
    method Plain(error: FrozenError) returns (r: Outcome<()>)
      modifies this`answers
      ensures Plainly(old(answers), answers, r, error)
    {
      if answers == [] {
        return Died;
      }
      r := if answers[0] then Done(()) else Failed(error);
      answers := answers[1..];
    }

    // -------------------------------------------------------------------------------------------
    // Writing
    // -------------------------------------------------------------------------------------------

    /** `landed` bytes went to the file, each once and in order; the replies say how many, and how it ended. */
    method PwriteAll(buf: seq<byte>, off: nat) returns (r: Outcome<()>, ghost landed: nat)
      requires off + |buf| <= |content|
      modifies this`content, this`replies, this`wrote
      ensures landed <= |buf| && content == Patched(old(content), off, buf[..landed])
      ensures wrote == old(wrote) + Offsets(off, landed)
      ensures var t := Transferred(old(replies), |buf|, |buf|);
              t.moved == landed && t.rest == replies && EndsAs(t.fate, r, Io)
      ensures r.Failed? ==> r.error == Io
      ensures Spent(old(replies), replies, |buf|, r)
    {
      var rest, at := buf, off;
      landed, r := 0, Done(());
      assert Patched(content, off, buf[..0]) == content;
      while rest != []
        invariant landed <= |buf| && rest == buf[landed..] && at == off + landed && |content| == |old(content)|
        invariant content == Patched(old(content), off, buf[..landed])
        invariant wrote == old(wrote) + Offsets(off, landed)
        invariant Goes(Transferred(old(replies), |buf|, |buf|), Transferred(replies, |rest|, |rest|), landed)
        invariant r.Done?
        decreases |replies|
      {
        var answer := Pwrite(rest, at);
        if answer == None {
          r := Died;
          break;
        }
        match answer.value
        case Intr =>
        case Refused =>
          r := Failed(Io);
          break;
        case Moved(n) =>
          PatchedTwice(old(content), off, buf, landed, n);
          OffsetsJoin(old(wrote), off, landed, n);
          if n == 0 {
            r := Failed(Io);
            break;
          }
          rest, at, landed := rest[n..], at + n, landed + n;
      }
      SpentBy(old(replies), |buf|, |buf|, r, Io);
    }

    /** On any exit the file is one of the writer's stages. */
    method WriteBody(h: FrozenHeader, manifest: seq<byte>, image: seq<byte>) returns (r: Outcome<()>)
      requires Fits(h, manifest, image)
      modifies this
      ensures PartWritten(content, old(content), h, manifest, image, |manifest| + |image|)
      ensures r.Done? ==> content == Stage(h, manifest, image, |manifest| + |image|)
      ensures r.Done? ==> |old(answers)| >= 2 && answers == old(answers)[2..]
      ensures Served(old(replies), old(answers), replies, answers, |manifest| + |image|, 2, r)
      ensures r.Failed? ==> r.error == Io
    {
      r := Discard(h.fileSize);
      if r.Done? {
        EmptyStage(h, manifest, image);
        ghost var k;
        r, k := WriteParts(h, manifest, image);
      }
    }

    /** Empties the file, and sizes it up with zeros. */
    method Discard(size: nat) returns (r: Outcome<()>)
      modifies this
      ensures r.Done? ==> content == Zeros(size)
      ensures r.Done? ==> |old(answers)| >= 2 && answers == old(answers)[2..]
      ensures r.Failed? ==> r.error == Io
      ensures !r.Done? ==> content == old(content) || content == []
      ensures Served(old(replies), old(answers), replies, answers, 0, 2, r)
    {
      r := Truncate(0);
      if r.Done? {
        r := Truncate(size);
      }
    }

    method WriteParts(h: FrozenHeader, manifest: seq<byte>, image: seq<byte>) returns (r: Outcome<()>, ghost k: nat)
      requires Fits(h, manifest, image) && content == Stage(h, manifest, image, 0)
      modifies this
      ensures k <= |manifest| + |image| && content == Stage(h, manifest, image, k)
      ensures r.Done? ==> k == |manifest| + |image|
      ensures answers == old(answers)
      ensures Served(old(replies), old(answers), replies, answers, |manifest| + |image|, 0, r)
      ensures r.Failed? ==> r.error == Io
    {
      r, k := PwriteAll(manifest, h.manifestOff);
      ManifestAdvance(h, manifest, image, k);
      if r.Done? {
        ghost var landed;
        r, landed := CopyImage(h, manifest, image);
        k := |manifest| + landed;
      }
    }

    /** One chunk of the image, behind the `done` bytes before it. */
    method CopyChunk(h: FrozenHeader, ghost manifest: seq<byte>, image: seq<byte>, done: nat, n: nat)
      returns (r: Outcome<()>, ghost landed: nat)
      requires Fits(h, manifest, image) && done + n <= |image|
      requires content == Stage(h, manifest, image, |manifest| + done)
      modifies this`content, this`replies, this`wrote
      ensures landed <= n && content == Stage(h, manifest, image, |manifest| + done + landed)
      ensures wrote == old(wrote) + Offsets(h.arenaOff + done, landed)
      ensures (r.Done? <==> landed == n) && Spent(old(replies), replies, n, r) && (r.Failed? ==> r.error == Io)
    {
      var buf := image[done..done + n];
      r, landed := PwriteAll(buf, h.arenaOff + done);
      assert buf[..landed] == image[done..done + landed];
      ImageAdvance(h, manifest, image, done, landed);
    }

    /** The image goes through one 64 KiB buffer, a chunk at a time, and each byte is written exactly once. */
    method CopyImage(h: FrozenHeader, ghost manifest: seq<byte>, image: seq<byte>)
      returns (r: Outcome<()>, ghost k: nat)
      requires Fits(h, manifest, image) && content == Stage(h, manifest, image, |manifest|)
      modifies this`content, this`replies, this`wrote
      ensures k <= |image| && content == Stage(h, manifest, image, |manifest| + k)
      ensures wrote == old(wrote) + Offsets(h.arenaOff, k)
      ensures r.Done? <==> k == |image|
      ensures Spent(old(replies), replies, |image|, r) && (r.Failed? ==> r.error == Io)
    {
      k := 0;
      var done := 0;
      while done < |image|
        invariant k == done <= |image| && content == Stage(h, manifest, image, |manifest| + done)
        invariant wrote == old(wrote) + Offsets(h.arenaOff, done)
        invariant Willing(old(replies)) ==> Willing(replies) && Moves(old(replies)) <= Moves(replies) + done
        decreases |image| - done
      {
        var n := Least(SNAPSHOT_CHUNK, |image| - done);
        ghost var landed;
        r, landed := CopyChunk(h, manifest, image, done, n);
        OffsetsJoin(old(wrote), h.arenaOff, done, landed);
        k := done + landed;
        if !r.Done? {
          return;
        }
        done := done + n;
      }
      r := Done(());
    }

    /** The commit point: nothing of the header is written unless the file was synchronised first. */
    method CommitHeader(h: FrozenHeader, ghost manifest: seq<byte>, ghost image: seq<byte>) returns (r: Outcome<()>)
      requires Fits(h, manifest, image) && content == Stage(h, manifest, image, |manifest| + |image|)
      modifies this
      ensures exists k: nat {:trigger Stage(h, manifest, image, k)} ::
                k <= Total(manifest, image) && content == Stage(h, manifest, image, k)
      ensures r.Done? ==> content == Stage(h, manifest, image, Total(manifest, image))
      ensures old(answers) == [] || !old(answers)[0] ==> content == old(content)
      ensures r.Done? ==> old(answers) != [] && answers == old(answers)[1..]
      ensures Served(old(replies), old(answers), replies, answers, FROZEN_HEADER_SIZE, 1, r)
      ensures r.Failed? ==> r.error == Io
    {
      r := Plain(Io);
      if !r.Done? {
        return;
      }
      ghost var landed;
      r, landed := PwriteAll(HeaderBytes(h), 0);
      HeaderAdvance(h, manifest, image, landed);
    }

    /**
     Whatever this returns, or wherever it dies, the file is one the crash theorem speaks of. Success
     means a complete file; nothing is touched if no header can be planned.
     */
    method WriteFrozen(image: seq<byte>, manifest: seq<byte>, provenance: seq<byte>) returns (r: Outcome<FrozenHeader>)
      requires |image| <= U64_MAX && |manifest| <= U64_MAX && |provenance| == PROVENANCE_SIZE
      modifies this
      ensures PlanHeader(|image|, |manifest|, provenance).Err? ==>
                r == Failed(PlanHeader(|image|, |manifest|, provenance).error) && content == old(content)
      ensures PlanHeader(|image|, |manifest|, provenance).Ok? ==>
                var h := PlanHeader(|image|, |manifest|, provenance).value;
                && Planned(h, manifest, image) && Fits(h, manifest, image)
                && PartWritten(content, old(content), h, manifest, image, Total(manifest, image))
                && (r.Done? ==> r.value == h && content == Stage(h, manifest, image, Total(manifest, image)))
                && Served(old(replies), old(answers), replies, answers, Total(manifest, image), 3, r)
                && (r.Failed? ==> r.error == Io)
                && (|old(answers)| < 3 || !old(answers)[2] ==>
                      PartWritten(content, old(content), h, manifest, image, |manifest| + |image|))
    {
      var planned := PlanHeader(|image|, |manifest|, provenance);
      if planned.Err? {
        return Failed(planned.error);
      }
      var h := planned.value;
      PlannedFits(h, manifest, image);
      var step := WriteBody(h, manifest, image);
      if step.Done? {
        step := CommitHeader(h, manifest, image);
      }
      r := match step
        case Done(_) => Done(h)
        case Failed(e) => Failed(e)
        case Died => Died;
    }

    // -------------------------------------------------------------------------------------------
    // Reading
    // -------------------------------------------------------------------------------------------

    /** One `pread` behind what has been read: more of the file, or the end of the loop. */
    method PreadOnce(len: nat, off: nat, ghost left: nat, buf: seq<byte>)
      returns (end: Option<Outcome<seq<byte>>>, more: seq<byte>)
      requires |buf| < len && |buf| <= left == Left(off) && Shows(content, off, buf)
      modifies this`replies
      ensures old(replies) == [] ==> end == Some(Died) && replies == []
      ensures old(replies) != [] ==> replies == old(replies)[1..] && Shows(content, off, more)
      ensures old(replies) != [] && old(replies)[0] == Intr ==> end == None && more == buf
      ensures old(replies) != [] && old(replies)[0] == Refused ==> end == Some(Failed(Io))
      ensures old(replies) != [] && old(replies)[0].Moved? ==>
                var m := Least(Least(old(replies)[0].n, len - |buf|), left - |buf|);
                |more| == |buf| + m && end == if m == 0 then Some(Failed(Truncated)) else None
    {
      end, more := None, buf;
      var answer, data := Pread(len - |buf|, off + |buf|);
      if answer == None {
        return Some(Died), buf;
      }
      match answer.value
      case Intr =>
      case Refused => return Some(Failed(Io)), buf;
      case Moved(n) =>
        if n == 0 {
          return Some(Failed(Truncated)), buf;
        }
        ReadOn(content, off, buf, data);
        more := buf + data;
    }

    /** The same, seen as a step of the whole transfer, whose replies were `first`. */
    method PreadStep(len: nat, off: nat, ghost left: nat, buf: seq<byte>, ghost first: seq<Reply>)
      returns (end: Option<Outcome<seq<byte>>>, more: seq<byte>)
      requires |buf| < len && |buf| <= left == Left(off) && Shows(content, off, buf)
      requires Goes(Transferred(first, len, left), Transferred(replies, len - |buf|, left - |buf|), |buf|)
      modifies this`replies
      ensures end == None ==> |replies| < |old(replies)| && Shows(content, off, more)
      ensures end == None ==> |more| <= len && |more| <= left
      ensures end == None ==>
                Goes(Transferred(first, len, left), Transferred(replies, len - |more|, left - |more|), |more|)
      ensures end.Some? ==> Transferred(first, len, left).rest == replies
      ensures end.Some? ==> !end.value.Done? && EndsAs(Transferred(first, len, left).fate, end.value, Truncated)
    {
      ghost var before := replies;
      end, more := PreadOnce(len, off, left, buf);
      if end.Some? {
        Ends(first, before, len, left, |buf|,
             if before == [] then Dead else if before[0].Refused? then Broken else Short);
      } else {
        Advances(first, before, len, left, |buf|, |more|);
      }
    }

    /** The loop: as much of the file as the replies bring, from `off` on, of which it has `left`. */
    method PreadLoop(len: nat, off: nat, ghost left: nat) returns (r: Outcome<seq<byte>>)
      requires left == Left(off)
      modifies this`replies
      ensures r.Done? ==> |r.value| == len && Shows(content, off, r.value)
      ensures Transferred(old(replies), len, left).rest == replies
      ensures EndsAs(Transferred(old(replies), len, left).fate, r, Truncated)
    {
      var buf: seq<byte> := [];
      while |buf| < len
        invariant |buf| <= len && |buf| <= left && Shows(content, off, buf)
        invariant Goes(Transferred(old(replies), len, left), Transferred(replies, len - |buf|, left - |buf|), |buf|)
        decreases |replies|
      {
        var end, more := PreadStep(len, off, left, buf, old(replies));
        if end.Some? {
          return end.value;
        }
        buf := more;
      }
      r := Done(buf);
    }

    /** The replies and the file's length say how the call ends; success gives exactly the bytes asked for. */
    method PreadExact(len: nat, off: nat) returns (r: Outcome<seq<byte>>)
      modifies this`replies
      ensures r.Done? ==> |r.value| == len && (len > 0 ==> off + len <= |content| && r.value == content[off..off + len])
      ensures Transferred(old(replies), len, Left(off)).rest == replies
      ensures EndsAs(Transferred(old(replies), len, Left(off)).fate, r, Truncated)
      ensures Willing(old(replies)) && r.Failed? ==> r.error == Truncated && off + len > |content|
      ensures Willing(old(replies)) && off + len > |content| && Moves(old(replies)) > Left(off) && len > 0 ==> r.Failed?
      ensures r.Failed? ==> r.error == Truncated || r.error == Io
      ensures len <= Left(off) ==> Spent(old(replies), replies, len, r)
    {
      r := PreadLoop(len, off, Left(off));
      if len <= Left(off) {
        SpentBy(old(replies), len, Left(off), r, Truncated);
      }
      if Willing(old(replies)) {
        WillingTransfers(old(replies), len, Left(off));
      }
    }

    /** The size, and the container header's bytes. */
    method ReadHeader() returns (r: Outcome<seq<byte>>)
      modifies this`replies, this`answers
      ensures r.Done? ==> |content| >= FROZEN_HEADER_SIZE && r.value == content[..FROZEN_HEADER_SIZE]
      ensures |content| >= FROZEN_HEADER_SIZE ==>
                Served(old(replies), old(answers), replies, answers, FROZEN_HEADER_SIZE, 1, r)
      ensures |content| < FROZEN_HEADER_SIZE && old(answers) != [] && old(answers)[0] ==> r == Failed(Truncated)
      ensures Willing(old(replies)) && Granting(old(answers)) && r.Failed? ==>
                |content| < FROZEN_HEADER_SIZE && r.error == Truncated
      ensures r.Died? ==> |content| >= FROZEN_HEADER_SIZE || old(answers) == []
    {
      var step := Plain(Io);
      if !step.Done? {
        return if step.Died? then Died else Failed(Io);
      }
      if |content| < FROZEN_HEADER_SIZE {
        return Failed(Truncated);
      }
      r := PreadExact(FROZEN_HEADER_SIZE, 0);
    }

    method OpenWith(check: Validator) returns (r: Outcome<View>)
      modifies this`replies, this`answers
      ensures r.Done? ==> OpenedWith(check, content) == Ok(r.value)
      ensures Willing(old(replies)) && Granting(old(answers)) && r.Failed? ==>
                OpenedWith(check, content) == Err(r.error)
      ensures Willing(old(replies)) && Granting(old(answers)) && r.Died? ==>
                Moves(old(replies)) < FROZEN_HEADER_SIZE || |old(answers)| < 2
      ensures OpenedWith(check, content).Ok? ==>
                Served(old(replies), old(answers), replies, answers, FROZEN_HEADER_SIZE, 2, r)
    {
      var raw := ReadHeader();
      if !raw.Done? {
        return if raw.Died? then Died else Failed(raw.error);
      }
      var h := ParseHeader(raw.value);
      var checked := CheckContainer(raw.value[..8], h, |content|);
      assert raw.value[..8] == content[..8];
      if checked.Err? {
        return Failed(checked.error);
      }
      var step := Plain(Map);
      if !step.Done? {
        return if step.Died? then Died else Failed(Map);
      }
      var image := content[h.arenaOff..h.arenaOff + h.arenaSize];
      var valid := check(image);
      r := if valid.Err? then Failed(ArenaRefused(valid.error)) else Done(View(h, image));
    }

    /**
     Any success is what the file holds. With no error from the kernel a failure is what the content deserves,
     and with 128 transfers and two answers to come the process does not die: the call decides as `Opened` does.
     */
    method Open() returns (r: Outcome<View>)
      modifies this`replies, this`answers
      ensures r.Done? ==> Opened(content) == Ok(r.value)
      ensures Willing(old(replies)) && Granting(old(answers)) && r.Failed? ==> Opened(content) == Err(r.error)
      ensures Willing(old(replies)) && Granting(old(answers)) && r.Died? ==>
                Moves(old(replies)) < FROZEN_HEADER_SIZE || |old(answers)| < 2
    {
      r := OpenWith(ValidateImage);
    }

    /** Opens and reads a file that is known to open on `image` and to hold `manifest`. */
    method ReadWritten(check: Validator, ghost h: FrozenHeader, ghost manifest: seq<byte>, ghost image: seq<byte>)
      returns (r: Outcome<ReadBack>)
      requires OpenedWith(check, content) == Ok(View(h, image)) && Willing(replies) && Granting(answers)
      requires h.manifestOff + h.manifestLen <= |content| && ManifestOf(content, h) == manifest
      modifies this`replies, this`answers
      ensures Served(old(replies), old(answers), replies, answers, FROZEN_HEADER_SIZE + h.manifestLen, 2, r)
      ensures r.Done? ==> r.value == ReadBack(View(h, image), manifest)
    {
      var seen := OpenWith(check);
      if !seen.Done? {
        return Died;
      }
      var bytes := ReadManifest(seen.value.header);
      r := if bytes.Done? then Done(ReadBack(seen.value, bytes.value)) else Died;
    }

    method ReadManifest(h: FrozenHeader) returns (r: Outcome<seq<byte>>)
      requires h.manifestOff + h.manifestLen <= |content|
      modifies this`replies
      ensures r.Done? ==> r.value == ManifestOf(content, h)
      ensures Spent(old(replies), replies, h.manifestLen, r)
      ensures r.Failed? ==> r.error == Truncated || r.error == Io
    {
      var out: seq<byte> := [];
      if h.manifestLen != 0 {
        r := PreadExact(h.manifestLen, h.manifestOff);
      } else {
        r := Done(out);
      }
    }
  }

  /** What a file that was written and read back shows; nothing if the process died on the way. */
  datatype ReadBack = ReadBack(view: View, manifest: seq<byte>)

  /** What the kernel will say to one process. */
  datatype Kernel = Kernel(replies: seq<Reply>, answers: seq<bool>)

  predicate Helpful(k: Kernel) {
    Willing(k.replies) && Granting(k.answers)
  }

  /** A new file is written. */
  method WriteNew(image: seq<byte>, manifest: seq<byte>, provenance: seq<byte>, kernel: Kernel)
    returns (content: seq<byte>, r: Outcome<FrozenHeader>)
    requires |provenance| == PROVENANCE_SIZE && |image| <= U64_MAX && |manifest| <= U32_MAX
    requires PlanHeader(|image|, |manifest|, provenance).Ok? && Helpful(kernel)
    ensures !r.Failed?
    ensures r.Died? ==> Moves(kernel.replies) < Total(manifest, image) || |kernel.answers| < 3
    ensures r.Done? ==> r.value == PlanHeader(|image|, |manifest|, provenance).value
                        && Planned(r.value, manifest, image) && Fits(r.value, manifest, image)
                        && content == Stage(r.value, manifest, image, Total(manifest, image))
  {
    var file := new File(kernel.replies, kernel.answers);
    r := file.WriteFrozen(image, manifest, provenance);
    content := file.content;
  }

  /** A file is opened and its manifest read. */
  method ReadOld(check: Validator, content: seq<byte>, ghost h: FrozenHeader, ghost manifest: seq<byte>,
                 ghost image: seq<byte>, kernel: Kernel) returns (r: Outcome<ReadBack>)
    requires OpenedWith(check, content) == Ok(View(h, image)) && Helpful(kernel)
    requires h.manifestOff + h.manifestLen <= |content| && ManifestOf(content, h) == manifest
    ensures !r.Failed?
    ensures r.Died? ==> Moves(kernel.replies) < FROZEN_HEADER_SIZE + h.manifestLen || |kernel.answers| < 2
    ensures r.Done? ==> r.value == ReadBack(View(h, image), manifest)
  {
    var file := new File(kernel.replies, kernel.answers);
    file.content := content;
    r := file.ReadWritten(check, h, manifest, image);
  }

  method WriteThenReadWith(check: Validator, image: seq<byte>, manifest: seq<byte>, provenance: seq<byte>,
                           writing: Kernel, reading: Kernel) returns (r: Outcome<ReadBack>)
    requires |provenance| == PROVENANCE_SIZE && HEADER_SIZE <= |image| <= U64_MAX && |manifest| <= U32_MAX
    requires PlanHeader(|image|, |manifest|, provenance).Ok? && check(image).Ok?
    requires Helpful(writing) && Helpful(reading)
    ensures !r.Failed?
    ensures r.Died? ==> Moves(writing.replies) < Total(manifest, image) || |writing.answers| < 3
                        || Moves(reading.replies) < FROZEN_HEADER_SIZE + |manifest| || |reading.answers| < 2
    ensures r.Done? ==>
              r.value == ReadBack(View(PlanHeader(|image|, |manifest|, provenance).value, image), manifest)
  {
    var content, written := WriteNew(image, manifest, provenance, writing);
    if !written.Done? {
      return Died;
    }
    PlannedFits(written.value, manifest, image);
    CompleteFileOpensFor(check, written.value, manifest, image);
    r := ReadOld(check, content, written.value, manifest, image, reading);
  }

  /**
   The round trip: for any valid image, any manifest whose length fits 32 bits and any interruptions and
   short transfers, writing never fails, and opening and reading give back what was written. With a transfer
   a byte, and an answer to each other call, to come, nobody dies and it all does come back.
   */
  method WriteThenRead(image: seq<byte>, manifest: seq<byte>, provenance: seq<byte>, writing: Kernel, reading: Kernel)
    returns (r: Outcome<ReadBack>)
    requires |provenance| == PROVENANCE_SIZE && |image| <= U64_MAX && |manifest| <= U32_MAX
    requires PlanHeader(|image|, |manifest|, provenance).Ok? && ValidateImage(image).Ok?
    requires Helpful(writing) && Helpful(reading)
    ensures !r.Failed?
    ensures r.Died? ==> Moves(writing.replies) < Total(manifest, image) || |writing.answers| < 3
                        || Moves(reading.replies) < FROZEN_HEADER_SIZE + |manifest| || |reading.answers| < 2
    ensures r.Done? ==>
              r.value == ReadBack(View(PlanHeader(|image|, |manifest|, provenance).value, image), manifest)
  {
    ValidateImageReadsTheHeader();
    r := WriteThenReadWith(ValidateImage, image, manifest, provenance, writing, reading);
  }

  // ---------------------------------------------------------------------------------------------
  // How a write moves the file from one stage to a later one
  // ---------------------------------------------------------------------------------------------

  /** Two writes that follow one another are one. */
  lemma {:induction false} PatchedTwice(content: seq<byte>, off: nat, buf: seq<byte>, landed: nat, n: nat)
    requires off + |buf| <= |content| && landed + n <= |buf|
    ensures Patched(Patched(content, off, buf[..landed]), off + landed, buf[landed..][..n])
            == Patched(content, off, buf[..landed + n])
  {
  }

  lemma {:induction false} EmptyStage(h: FrozenHeader, manifest: seq<byte>, image: seq<byte>)
    requires Fits(h, manifest, image)
    ensures Stage(h, manifest, image, 0) == Zeros(h.fileSize)
  {
  }

  lemma {:induction false} ManifestAdvance(h: FrozenHeader, manifest: seq<byte>, image: seq<byte>, n: nat)
    requires Fits(h, manifest, image) && n <= |manifest|
    ensures Patched(Stage(h, manifest, image, 0), h.manifestOff, manifest[..n]) == Stage(h, manifest, image, n)
  {
  }

  lemma {:induction false} ImageAdvance(h: FrozenHeader, manifest: seq<byte>, image: seq<byte>, done: nat, n: nat)
    requires Fits(h, manifest, image) && done + n <= |image|
    ensures Patched(Stage(h, manifest, image, |manifest| + done), h.arenaOff + done, image[done..done + n])
            == Stage(h, manifest, image, |manifest| + done + n)
  {
  }

  lemma {:induction false} HeaderAdvance(h: FrozenHeader, manifest: seq<byte>, image: seq<byte>, n: nat)
    requires Fits(h, manifest, image) && n <= FROZEN_HEADER_SIZE
    ensures Patched(Stage(h, manifest, image, |manifest| + |image|), 0, HeaderBytes(h)[..n])
            == Stage(h, manifest, image, |manifest| + |image| + n)
  {
  }
}
