/**
 The clock offsets a writer records: one every so many pushes, counted down in a cell. `Event` is one
 push as the sampler sees it: refused by the ring, accepted with no readable clock, or with one.
 */
module OffsetSampler {
  import opened Options
  import opened Layout
  import opened Cbor

  const DEFAULT_SAMPLE_EVERY: u32 := 1024

  datatype Event = Refused | NoClock(stamp: i64) | Clock(now: i64, stamp: i64)

  /** `pushes` counts accepted pushes, `last` the number of the one that last stored, `stored` the stores. */
  datatype State = State(until: nat, pushes: nat, last: Option<nat>, stored: nat, offset: int)

  function Saturated(n: int): i64 {
    if n < I64_MIN then I64_MIN else if n > I64_MAX then I64_MAX else n
  }

  /** Zero is kept free to mean that nothing was recorded. */
  function RecordedOffset(now: i64, stamp: i64): (r: i64)
    ensures r != 0
    ensures I64_MIN <= now - stamp <= I64_MAX && now != stamp ==> r == now - stamp
    ensures now < stamp <==> r < 0
    ensures now == stamp ==> r == 1
    ensures now - stamp > 0x7FFF_FFFF_FFFF_FFFF ==> r == 0x7FFF_FFFF_FFFF_FFFF
    ensures now - stamp < -0x8000_0000_0000_0000 ==> r == -0x8000_0000_0000_0000
  {
    if Saturated(now - stamp) == 0 then 1 else Saturated(now - stamp)
  }

  /** One sample a second of declared rate, in pushes; never for a domain that is not the wall clock's. */
  function SampleInterval(systemDomain: bool, mhz: u32): (r: u32)
    ensures r == 0 <==> !systemDomain
    ensures systemDomain && mhz >= 1000 ==> r * 1000 <= mhz < (r + 1) * 1000
    ensures systemDomain && 0 < mhz < 1000 ==> r == 1
    ensures systemDomain && mhz == 0 ==> r == 1024
  {
    if !systemDomain then 0
    else if mhz == 0 then DEFAULT_SAMPLE_EVERY
    else if mhz / 1000 < 1 then 1
    else mhz / 1000
  }

  const FRESH := State(0, 0, None, 0, 0)

  function After(every: u32, s: State, event: Event): State {
    if event.Refused? then s
    else
      var t := s.(pushes := s.pushes + 1);
      if s.until != 0 then t.(until := s.until - 1)
      else if every == 0 || event.NoClock? then t
      else t.(until := every - 1, last := Some(s.pushes), stored := s.stored + 1,
              offset := RecordedOffset(event.now, event.stamp))
  }

  function Run(every: u32, events: seq<Event>): State
    decreases |events|
  {
    if events == [] then FRESH else After(every, Run(every, events[..|events| - 1]), events[|events| - 1])
  }

  /** An edge writer's sampler. The offset itself is a field of the claim record. */
  class Sampler {
    const sampleEvery: u32
    var untilSample: nat
    var offset: int
    ghost var ran: seq<Event>

    ghost predicate Valid()
      reads this
    {
      untilSample == Run(sampleEvery, ran).until && offset == Run(sampleEvery, ran).offset
    }

    constructor (systemDomain: bool, mhz: u32)
      ensures Valid() && ran == [] && sampleEvery == SampleInterval(systemDomain, mhz)
    {
      sampleEvery := SampleInterval(systemDomain, mhz);
      untilSample := 0;
      offset := 0;
      ran := [];
    }

    /** `push`: the clock is read after the ring took the sample, and only when its turn has come. */
    method Push(event: Event)
      requires Valid()
      modifies this
      ensures Valid() && ran == old(ran) + [event]
      ensures offset != old(offset) ==> offset != 0 && event.Clock?
    {
      ran := ran + [event];
      assert ran[..|ran| - 1] == old(ran);
      if event.Refused? {
        return;
      }
      if untilSample != 0 {
        untilSample := untilSample - 1;
        return;
      }
      if sampleEvery == 0 {
        return;
      }
      if event.NoClock? {
        return;
      }
      untilSample := sampleEvery - 1;
      offset := RecordedOffset(event.now, event.stamp);
    }
  }

  // ---------------------------------------------------------------------------------------------
  // When it stores
  // ---------------------------------------------------------------------------------------------

  /** Enough pushes were accepted since the last store. */
  predicate Due(every: u32, s: State) {
    every > 0 && (s.last == None || s.pushes >= s.last.value + every)
  }

  ghost predicate Counts(every: u32, s: State) {
    && (s.last.Some? ==> s.last.value < s.pushes)
    && s.until == (if s.last == None || s.pushes >= s.last.value + every then 0 else s.last.value + every - s.pushes)
    && (every == 0 ==> s.last == None)
    && (s.stored == 0 <==> s.last == None) && (s.stored == 0 <==> s.offset == 0)
  }

  lemma {:induction false} RunCounts(every: u32, events: seq<Event>)
    ensures Counts(every, Run(every, events))
    decreases |events|
  {
    if events != [] {
      RunCounts(every, events[..|events| - 1]);
    }
  }

  /**
   After any pushes, refused ones and unreadable clocks among them, the next stores exactly when it is
   accepted, its clock can be read, and a whole interval of accepted pushes has gone by since the last
   store. So a refused push and an unreadable clock do not lose the turn, and zero is never stored.
   */
  lemma {:induction false} StoresExactlyWhen(every: u32, events: seq<Event>, event: Event)
    ensures var s := Run(every, events);
            && (After(every, s, event).stored == s.stored + 1 <==> event.Clock? && Due(every, s))
            && (After(every, s, event).stored == s.stored || After(every, s, event).stored == s.stored + 1)
            && (s.offset == 0 <==> s.stored == 0)
  {
    RunCounts(every, events);
  }

  function Accepted(events: seq<Event>): nat
    decreases |events|
  {
    if events == [] then 0
    else Accepted(events[..|events| - 1]) + (if events[|events| - 1].Refused? then 0 else 1)
  }

  /** How many of the numbers below `k` are multiples of `n`. */
  function Multiples(k: nat, n: nat): nat
    requires n > 0
  {
    if k == 0 then 0 else Multiples(k - 1, n) + (if (k - 1) % n == 0 then 1 else 0)
  }

  lemma {:induction false} AtLeastOnce(a: nat, n: nat)
    requires a > 0
    ensures a * n >= n
  {
    assert a * n == (a - 1) * n + n;
    assert (a - 1) * n >= 0;
  }

  /** Quotient and remainder are the only such pair. */
  lemma {:induction false} Divided(k: nat, n: nat, q: nat, r: nat)
    requires n > 0 && r < n && k == q * n + r
    ensures k / n == q && k % n == r
  {
    var p, s := k / n, k % n;
    assert k == p * n + s;
    if p < q {
      assert (q - p) * n == q * n - p * n;
      AtLeastOnce(q - p, n);
    } else if q < p {
      assert (p - q) * n == p * n - q * n;
      AtLeastOnce(p - q, n);
    }
  }

  lemma {:induction false} CeilStep(k: nat, n: nat, q: nat, r: nat)
    requires n > 0 && r < n && k == q * n + r
    ensures (k + n) / n == q + 1 && k % n == r
    ensures (k + n - 1) / n == if r == 0 then q else q + 1
  {
    assert (q + 1) * n == q * n + n;
    Divided(k, n, q, r);
    Divided(k + n, n, q + 1, r);
    if r == 0 {
      Divided(k + n - 1, n, q, n - 1);
    } else {
      Divided(k + n - 1, n, q + 1, r - 1);
    }
  }

  lemma {:induction false} Division(k: nat, n: nat) returns (q: nat, r: nat)
    requires n > 0
    ensures r < n && k == q * n + r
  {
    q, r := k / n, k % n;
  }

  /** There are ceil(k / n) of them. */
  lemma {:induction false} MultiplesAreCeil(k: nat, n: nat)
    requires n > 0
    ensures Multiples(k, n) == (k + n - 1) / n
    decreases k
  {
    if k == 0 {
      Divided(n - 1, n, 0, n - 1);
    } else {
      MultiplesAreCeil(k - 1, n);
      var q, r := Division(k - 1, n);
      CeilStep(k - 1, n, q, r);
    }
  }

  /** While the clock can be read, the last store was at a multiple of n, and the next multiple is not past. */
  ghost predicate Regular(n: u32, s: State)
    requires n > 0
  {
    && s.stored == Multiples(s.pushes, n)
    && (s.last == None <==> s.pushes == 0)
    && (s.last.Some? ==> s.last.value % n == 0 && s.last.value < s.pushes <= s.last.value + n)
  }

  lemma {:induction false} NextMultiple(last: nat, k: nat, n: nat)
    requires n > 0 && last % n == 0 && last < k <= last + n
    ensures k % n == 0 <==> k == last + n
  {
    var q := last / n;
    assert last == q * n && (q + 1) * n == q * n + n;
    if k == last + n {
      Divided(k, n, q + 1, 0);
    } else {
      Divided(k, n, q, k - last);
    }
  }

  lemma {:induction false} DueAtMultiples(n: u32, s: State)
    requires n > 0 && Regular(n, s)
    ensures Due(n, s) <==> s.pushes % n == 0
  {
    if s.last.Some? {
      NextMultiple(s.last.value, s.pushes, n);
    }
  }

  lemma {:induction false} RegularStep(n: u32, s: State, event: Event)
    requires n > 0 && Regular(n, s) && Counts(n, s) && !event.NoClock?
    ensures Regular(n, After(n, s, event))
  {
    DueAtMultiples(n, s);
    assert Multiples(s.pushes + 1, n) == Multiples(s.pushes, n) + (if s.pushes % n == 0 then 1 else 0);
  }

  lemma {:induction false} RegularRun(n: u32, events: seq<Event>)
    requires n > 0 && forall i :: 0 <= i < |events| ==> !events[i].NoClock?
    ensures Regular(n, Run(n, events)) && Run(n, events).pushes == Accepted(events)
    decreases |events|
  {
    if events != [] {
      var before := events[..|events| - 1];
      RegularRun(n, before);
      RunCounts(n, before);
      RegularStep(n, Run(n, before), events[|events| - 1]);
    }
  }

  /**
   With a readable clock and interval n, k accepted pushes store ceil(k / n) offsets, and a push stores
   exactly when its number is a multiple of n. Refused pushes in between change nothing.
   */
  lemma {:induction false} StoresEveryNth(n: u32, events: seq<Event>, event: Event)
    requires n > 0 && event.Clock? && forall i :: 0 <= i < |events| ==> !events[i].NoClock?
    ensures Run(n, events).stored == (Accepted(events) + n - 1) / n
    ensures After(n, Run(n, events), event).stored == Run(n, events).stored + 1 <==> Accepted(events) % n == 0
  {
    RegularRun(n, events);
    RunCounts(n, events);
    MultiplesAreCeil(Accepted(events), n);
    DueAtMultiples(n, Run(n, events));
  }

  /** An interval of zero never stores. */
  lemma {:induction false} ZeroNeverStores(events: seq<Event>)
    ensures Run(0, events).stored == 0 && Run(0, events).offset == 0
    decreases |events|
  {
    if events != [] {
      ZeroNeverStores(events[..|events| - 1]);
    }
  }
}
