/**
 The layout arithmetic as a 64-bit release build does it: every sum and product modulo 2^64. The total
 it compares with the limit is the true one modulo 2^64, so a list whose true total lies a little above a
 multiple of 2^64 is accepted.
 */
module LayoutWraps {
  import opened Layout

  function Wrap(n: nat): (r: nat)
    ensures r < USIZE_MODULUS && (n < USIZE_MODULUS ==> r == n)
  {
    n % USIZE_MODULUS
  }

  /** `(n + 63) & !63` */
  function WrappedAlign(n: nat): nat {
    Wrap(n + 63) / 64 * 64
  }

  function WrappedSizes(mf: u32, me: u32, mp: u32, slots: nat): (r: seq<nat>)
    ensures |r| == N_REGIONS
  {
    [HEADER_SIZE,
     WrappedAlign(Wrap(mf * 64)),
     WrappedAlign(Wrap(NextPow2Of(Wrap(2 * mf)) * FRAME_HASH_STRIDE)),
     Wrap(TOPO_BLOCKS * WrappedAlign(Wrap(mf * 12))),
     WrappedAlign(Wrap(me * 64)),
     WrappedAlign(Wrap(mp * 128)),
     WrappedAlign(Wrap(me * 128)),
     WrappedAlign(Wrap(slots * 8)),
     WrappedAlign(Wrap(slots * 64)),
     WrappedAlign(Wrap(me * 128)),
     WrappedAlign(Wrap(mp * 128))]
  }

  // ---------------------------------------------------------------------------------------------
  // What wrapping does to each step
  // ---------------------------------------------------------------------------------------------

  lemma {:induction false} WrapSum(a: nat, b: nat)
    ensures Wrap(Wrap(a) + Wrap(b)) == Wrap(a + b) == Wrap(Wrap(a) + b)
  {
    var q, r := a / USIZE_MODULUS, b / USIZE_MODULUS;
    assert a == q * USIZE_MODULUS + Wrap(a) && b == r * USIZE_MODULUS + Wrap(b);
    WrapShift(Wrap(a) + Wrap(b), q + r);
    WrapShift(Wrap(a) + b, q);
  }

  lemma {:induction false} WrapShift(n: nat, q: nat)
    ensures Wrap(n + q * USIZE_MODULUS) == Wrap(n)
  {
    assert (n + q * USIZE_MODULUS) / USIZE_MODULUS == n / USIZE_MODULUS + q;
  }

  lemma {:induction false} WrapTimes(n: nat, k: nat)
    ensures Wrap(Wrap(n) * k) == Wrap(n * k)
  {
    var q := n / USIZE_MODULUS;
    assert n == q * USIZE_MODULUS + Wrap(n);
    assert n * k == Wrap(n) * k + q * k * USIZE_MODULUS;
    WrapShift(Wrap(n) * k, q * k);
  }

  lemma {:induction false} AlignShift(n: nat, q: nat)
    ensures Align64(n + q * USIZE_MODULUS) == Align64(n) + q * USIZE_MODULUS
  {
    assert q * USIZE_MODULUS == 64 * (q * (USIZE_MODULUS / 64));
    assert (n + q * USIZE_MODULUS + 63) / 64 == (n + 63) / 64 + q * (USIZE_MODULUS / 64);
  }

  /** 64 divides the modulus, so rounding up to 64 and wrapping commute. */
  lemma {:induction false} AlignWraps(n: nat)
    ensures WrappedAlign(Wrap(n)) == Wrap(Align64(n))
  {
    var x, q := Wrap(n), n / USIZE_MODULUS;
    assert n == x + q * USIZE_MODULUS;
    AlignShift(x, q);
    WrapShift(Align64(x), q);
    if x + 63 >= USIZE_MODULUS {
      assert Align64(x) == USIZE_MODULUS;
    }
  }

  lemma {:induction false} SlotSizesWrap(slots: nat)
    ensures WrappedAlign(Wrap(Wrap(slots) * 8)) == Wrap(Align64(slots * 8))
    ensures WrappedAlign(Wrap(Wrap(slots) * 64)) == Wrap(Align64(slots * 64))
  {
    WrapTimes(slots, 8);
    WrapTimes(slots, 64);
    AlignWraps(slots * 8);
    AlignWraps(slots * 64);
  }

  lemma {:induction false} SizesWrap(mf: u32, me: u32, mp: u32, slots: nat)
    ensures forall i {:trigger Sizes(mf, me, mp, slots)[i]} :: 0 <= i < N_REGIONS
              ==> WrappedSizes(mf, me, mp, Wrap(slots))[i] == Wrap(Sizes(mf, me, mp, slots)[i])
  {
    SlotSizesWrap(slots);
    AlignWraps(mf * 64);
    AlignWraps(NextPow2Of(2 * mf) * FRAME_HASH_STRIDE);
    AlignWraps(mf * 12);
    AlignWraps(me * 64);
    AlignWraps(mp * 128);
    AlignWraps(me * 128);
  }

  // ---------------------------------------------------------------------------------------------
  // What it does to the whole
  // ---------------------------------------------------------------------------------------------

  method WrappedSlots(capacities: seq<u32>) returns (slots: nat)
    ensures slots == Wrap(Sum(capacities))
  {
    slots := 0;
    for k := 0 to |capacities|
      invariant slots == Wrap(Sum(capacities[..k]))
    {
      PrefixStep(capacities, k);
      WrapSum(Sum(capacities[..k]), capacities[k]);
      slots := Wrap(slots + capacities[k]);
    }
    assert capacities[..|capacities|] == capacities;
  }

  /** The running offset over the sizes, and at the end the total. */
  method WrappedEnd(sizes: seq<nat>, ghost whole: seq<nat>) returns (off: nat)
    requires |sizes| == |whole| && forall i :: 0 <= i < |sizes| ==> sizes[i] == Wrap(whole[i])
    ensures off == Wrap(Sum(whole))
  {
    off := 0;
    for i := 0 to |sizes|
      invariant off == Wrap(Start(whole, i))
    {
      PrefixStep(whole, i);
      WrapSum(Start(whole, i), whole[i]);
      off := Wrap(off + sizes[i]);
    }
    assert whole[..|whole|] == whole;
  }

  method WrappedTotal(mf: u32, me: u32, mp: u32, capacities: seq<u32>) returns (total: nat)
    ensures total == TotalSize(Geometry(mf, me, mp, Sum(capacities))) % USIZE_MODULUS
  {
    var slots := WrappedSlots(capacities);
    ghost var sum := Sum(capacities);
    SizesWrap(mf, me, mp, sum);
    SizesTotal(mf, me, mp, sum);
    total := WrappedEnd(WrappedSizes(mf, me, mp, slots), Sizes(mf, me, mp, sum));
  }

  lemma {:induction false} SizesTotal(mf: u32, me: u32, mp: u32, slots: nat)
    ensures Sum(Sizes(mf, me, mp, slots)) == TotalSize(Geometry(mf, me, mp, slots))
  {
    LaidTiles(Sizes(mf, me, mp, slots));
  }

  ghost predicate GoodList(me: u32, capacities: seq<u32>) {
    |capacities| == me && forall j :: 0 <= j < |capacities| ==> GoodCapacity(capacities[j])
  }

  /** What a 64-bit release build accepts, and when that is what the unbounded sums accept. */
  method Accepts64(mf: u32, me: u32, capacities: seq<u32>) returns (ok: bool)
    ensures ok <==> GoodList(me, capacities)
                    && TotalSize(Geometry(mf, me, DEFAULT_MAX_PARTICIPANTS, Sum(capacities))) % USIZE_MODULUS <= U32_MAX
    ensures New(mf, me, capacities).Ok? ==> ok
    ensures |capacities| < EDGES_WITHOUT_WRAP ==> (ok <==> New(mf, me, capacities).Ok?)
  {
    if |capacities| != me {
      return false;
    }
    for edge := 0 to |capacities|
      invariant forall j :: 0 <= j < edge ==> GoodCapacity(capacities[j])
    {
      if !GoodCapacity(capacities[edge]) {
        return false;
      }
    }
    var total := WrappedTotal(mf, me, DEFAULT_MAX_PARTICIPANTS, capacities);
    if me < EDGES_WITHOUT_WRAP {
      NoWrap(mf, me, capacities);
    }
    ok := total <= U32_MAX;
  }

  // ---------------------------------------------------------------------------------------------
  // A list that shows it
  // ---------------------------------------------------------------------------------------------

  function Copies(n: nat, capacity: u32): (r: seq<u32>)
    ensures |r| == n
  {
    seq(n, _ => capacity)
  }

  lemma {:induction false} SumCopies(n: nat, capacity: u32)
    ensures Sum(Copies(n, capacity)) == n * capacity
    decreases n
  {
    if n > 0 {
      assert Copies(n, capacity)[1..] == Copies(n - 1, capacity);
      SumCopies(n - 1, capacity);
      assert n * capacity == capacity + (n - 1) * capacity;
    }
  }

  const WIDE := 0x8000_0000
  const NARROW := 0x200_0000
  const EDGES := 0x800_0000

  /** 2^27 edges: 119304646 rings of 2^31 slots, 54 of 2^25, and the rest without a ring. */
  function OverflowingList(): (r: seq<u32>)
    ensures |r| == EDGES
  {
    Copies(119_304_646, WIDE) + Copies(54, NARROW) + Copies(EDGES - 119_304_700, 0)
  }

  /** Powers of two, a byte at a time. */
  lemma {:induction false} SmallPowers()
    ensures Pow2(8) == 0x100 && Pow2(1) == 2 && Pow2(7) == 0x80
  {
    assert Pow2(4) == 16 && Pow2(3) == 8;
    Pow2Sum(4, 4);
    Pow2Sum(4, 3);
  }

  lemma {:induction false} WidePowers()
    ensures Pow2(25) == NARROW && Pow2(31) == WIDE
  {
    SmallPowers();
    Pow2Sum(8, 8);
    Pow2Sum(16, 8);
    Pow2Sum(24, 1);
    Pow2Sum(24, 7);
  }

  lemma {:induction false} GoodWidths()
    ensures GoodCapacity(WIDE) && GoodCapacity(NARROW) && GoodCapacity(0)
  {
    WidePowers();
    Pow2IsPow2(31);
    Pow2IsPow2(25);
  }

  lemma {:induction false} OverflowingListIsGood()
    ensures GoodList(EDGES, OverflowingList())
  {
    GoodWidths();
    var list := OverflowingList();
    forall j | 0 <= j < |list| ensures list[j] == WIDE || list[j] == NARROW || list[j] == 0 {
    }
  }

  lemma {:induction false} OverflowingListSum()
    ensures Sum(OverflowingList()) == 256_204_778_227_367_936
  {
    var wide, narrow, rest := Copies(119_304_646, WIDE), Copies(54, NARROW), Copies(EDGES - 119_304_700, 0);
    SumCopies(119_304_646, WIDE);
    SumCopies(54, NARROW);
    SumCopies(EDGES - 119_304_700, 0);
    SumAppend(wide, narrow);
    SumAppend(wide + narrow, rest);
  }

  lemma {:induction false} TotalOf(me: nat, slots: nat)
    requires slots % 8 == 0
    ensures TotalSize(Geometry(1, me, DEFAULT_MAX_PARTICIPANTS, slots)) == 17_088 + 320 * me + 72 * slots
  {
    TotalIsSum(1, me, DEFAULT_MAX_PARTICIPANTS, slots);
    assert DoubledTo(1, 2) == DoubledTo(2, 2) == 2;
    AlignOfMultiple(me);
    AlignOfMultiple(2 * me);
    AlignOfMultiple(slots / 8);
    AlignOfMultiple(slots);
  }

  lemma {:induction false} AlignOfMultiple(n: nat)
    ensures Align64(64 * n) == 64 * n
  {
  }

  lemma {:induction false} WrapsToLittle(capacities: seq<u32>)
    requires Sum(capacities) == 256_204_778_227_367_936
    ensures var total := TotalSize(Geometry(1, EDGES, DEFAULT_MAX_PARTICIPANTS, Sum(capacities)));
            total == USIZE_MODULUS + 1_610_629_824 && total % USIZE_MODULUS == 1_610_629_824
    ensures New(1, EDGES, capacities).Err?
  {
    TotalOf(EDGES, Sum(capacities));
  }

  /**
   A good list whose true total is 2^64 bytes and another 1.6 GB. With unbounded sums it is refused; in 64
   bits the total wraps to those 1.6 GB, fits, and the list is accepted.
   */
  lemma {:induction false} AWrappedTotalFits() returns (capacities: seq<u32>)
    ensures GoodList(EDGES, capacities) && New(1, EDGES, capacities).Err?
    ensures var total := TotalSize(Geometry(1, EDGES, DEFAULT_MAX_PARTICIPANTS, Sum(capacities)));
            total > USIZE_MODULUS && total % USIZE_MODULUS <= U32_MAX
  {
    capacities := OverflowingList();
    OverflowingListIsGood();
    OverflowingListSum();
    WrapsToLittle(capacities);
  }
}
