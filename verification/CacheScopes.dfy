/**
 The scope half of a cache key: which arena a plan is meaningful against. An arena nobody else can map
 draws a number from a process-wide counter; a shared one folds the uuid its creator drew.
 */
module CacheScopes {
  import opened Options
  import opened Layout
  import opened Bytes
  import PlanCache

  const TOP_BIT := 0x8000_0000_0000_0000
  const UUID_SIZE := 16

  datatype Backing = Heap | Mapped(uuid: seq<byte>) | FrozenImage

  datatype Given = Given(backing: Backing, scope: nat)

  /** The uuid that identifies a backing, if it has one. */
  function Identity(backing: Backing): Option<seq<byte>> {
    if backing.Mapped? && backing.uuid != Zeros(|backing.uuid|) then Some(backing.uuid) else None
  }

  /** Only a mapping has an identity, and only if some byte of its uuid was drawn. */
  lemma {:induction false} IdentityExactlyWhen(backing: Backing)
    ensures Identity(backing).Some? <==>
            backing.Mapped? && exists k: nat :: k < |backing.uuid| && backing.uuid[k] != 0
    ensures Identity(backing).Some? ==> Identity(backing).value == backing.uuid
  {
    if backing.Mapped? && backing.uuid != Zeros(|backing.uuid|) {
      var k: nat :| k < |backing.uuid| && backing.uuid[k] != Zeros(|backing.uuid|)[k];
      assert backing.uuid[k] != 0;
    }
  }

  /** Setting bit 63 of a 64-bit number. */
  function WithTopBit(n: nat): (r: nat)
    requires n <= U64_MAX
    ensures TOP_BIT <= r <= U64_MAX && r % TOP_BIT == n % TOP_BIT
  {
    if n < TOP_BIT then n + TOP_BIT else n
  }

  lemma {:induction false} XorBelow(a: nat, b: nat, bits: nat)
    requires a < Pow2(bits) && b < Pow2(bits)
    ensures PlanCache.Xor(a, b) < Pow2(bits)
    decreases bits
  {
    if bits > 0 {
      XorBelow(a / 2, b / 2, bits - 1);
    }
  }

  lemma {:induction false} Pow2Of64()
    ensures Pow2(64) == U64_MAX + 1
  {
    assert Pow2(4) == 2 * Pow2(3) && Pow2(3) == 2 * Pow2(2) == 8;
    Pow2Sum(4, 4);
    Pow2Sum(8, 8);
    Pow2Sum(16, 16);
    Pow2Sum(32, 32);
  }

  /** What a shared arena's two uuid halves fold to. */
  function SharedScope(uuid: seq<byte>): (r: nat)
    requires |uuid| == UUID_SIZE
    ensures TOP_BIT <= r <= U64_MAX
  {
    Pow2Of64();
    XorBelow(Le64(uuid, 0), Le64(uuid, 8), 64);
    WithTopBit(PlanCache.Xor(Le64(uuid, 0), Le64(uuid, 8)))
  }

  lemma {:induction false} XorCommutes(a: nat, b: nat)
    ensures PlanCache.Xor(a, b) == PlanCache.Xor(b, a)
    decreases a + b
  {
    if !(a == 0 && b == 0) {
      XorCommutes(a / 2, b / 2);
    }
  }

  /** Bits below the top one, as a remainder. */
  lemma {:induction false} BelowTheTop(x: nat)
    ensures PlanCache.LowBits(x, 63) == x % TOP_BIT
  {
    Pow2Of64();
    assert Pow2(64) == 2 * Pow2(63);
    var q := PlanCache.LowBitsAreARemainder(x, 63);
    assert x == TOP_BIT * q + PlanCache.LowBits(x, 63);
  }

  lemma {:induction false} FoldsAlike(x: nat, a: nat, b: nat)
    ensures PlanCache.Xor(a, x) % TOP_BIT == PlanCache.Xor(b, x) % TOP_BIT <==> a % TOP_BIT == b % TOP_BIT
  {
    PlanCache.XorLowBits(a, x, 63);
    PlanCache.XorLowBits(b, x, 63);
    BelowTheTop(a);
    BelowTheTop(b);
    BelowTheTop(x);
    BelowTheTop(PlanCache.Xor(a, x));
    BelowTheTop(PlanCache.Xor(b, x));
    if PlanCache.Xor(a % TOP_BIT, x % TOP_BIT) == PlanCache.Xor(b % TOP_BIT, x % TOP_BIT) {
      PlanCache.XorInjective(a % TOP_BIT, b % TOP_BIT, x % TOP_BIT);
    }
  }

  /** With a bit at the top set, two numbers are the same exactly if they were below it. */
  lemma {:induction false} TopBitHidesOneBit(a: nat, b: nat)
    requires a <= U64_MAX && b <= U64_MAX
    ensures WithTopBit(a) == WithTopBit(b) <==> a % TOP_BIT == b % TOP_BIT
  {
  }

  /**
   Each half of the uuid counts, but for its top bit: two uuids that agree in one half have the same scope
   exactly if they agree in the low 63 bits of the other.
   */
  lemma {:induction false} EitherHalfSeparates(a: seq<byte>, b: seq<byte>)
    requires |a| == |b| == 16
    ensures Le64(a, 0) == Le64(b, 0) ==>
              (SharedScope(a) == SharedScope(b) <==> Le64(a, 8) % TOP_BIT == Le64(b, 8) % TOP_BIT)
    ensures Le64(a, 8) == Le64(b, 8) ==>
              (SharedScope(a) == SharedScope(b) <==> Le64(a, 0) % TOP_BIT == Le64(b, 0) % TOP_BIT)
  {
    Pow2Of64();
    XorBelow(Le64(a, 0), Le64(a, 8), 64);
    XorBelow(Le64(b, 0), Le64(b, 8), 64);
    TopBitHidesOneBit(PlanCache.Xor(Le64(a, 0), Le64(a, 8)), PlanCache.Xor(Le64(b, 0), Le64(b, 8)));
    FoldsAlike(Le64(a, 8), Le64(a, 0), Le64(b, 0));
    FoldsAlike(Le64(a, 0), Le64(a, 8), Le64(b, 8));
    XorCommutes(Le64(a, 8), Le64(a, 0));
    XorCommutes(Le64(b, 8), Le64(b, 0));
  }

  /** The counter behind `next_local_scope`, and the scopes it and the uuids have given out. */
  class Scopes {
    var next: nat
    ghost var given: seq<Given>

    /** Local scopes are distinct and below the counter; shared ones have the top bit and are the uuid's. */
    ghost predicate Valid()
      reads this
    {
      && 1 <= next
      && (forall i {:trigger given[i]} :: 0 <= i < |given| ==>
            if Identity(given[i].backing) == None then 1 <= given[i].scope < next
            else |given[i].backing.uuid| == UUID_SIZE && given[i].scope == SharedScope(given[i].backing.uuid))
      && (forall i, j {:trigger given[i], given[j]} ::
            (0 <= i < j < |given| && Identity(given[i].backing) == None && Identity(given[j].backing) == None)
            ==> given[i].scope != given[j].scope)
    }

    constructor ()
      ensures Valid() && next == 1 && given == []
    {
      next := 1;
      given := [];
    }

    method NextLocalScope() returns (n: nat)
      modifies this`next
      ensures n == old(next) && next == n + 1
    {
      n := next;
      next := n + 1;
    }

    /**
     The new scope differs from every local one given before, and from every shared one while fewer
     than 2^63 trees have been made; a shared arena's scope is its uuid's, whichever handle asks.
     */
    method CacheScopeFor(backing: Backing) returns (scope: nat)
      requires Valid() && (backing.Mapped? ==> |backing.uuid| == UUID_SIZE)
      modifies this
      ensures Valid() && given == old(given) + [Given(backing, scope)]
      ensures Identity(backing) == None ==> next == old(next) + 1 && scope == old(next)
      ensures Identity(backing) != None ==> next == old(next) && scope == SharedScope(backing.uuid)
      ensures next == old(next) <==> backing.Mapped? && exists k: nat :: k < 16 && backing.uuid[k] != 0
      ensures Identity(backing) == None && scope < TOP_BIT ==>
                forall i {:trigger old(given)[i]} :: 0 <= i < |old(given)| ==> old(given)[i].scope != scope
    {
      IdentityExactlyWhen(backing);
      match Identity(backing) {
        case None => scope := NextLocalScope();
        case Some(uuid) => scope := SharedScope(uuid);
      }
      given := given + [Given(backing, scope)];
    }
  }

  /** No two scopes of one process collide, but for two handles on arenas whose uuids fold alike. */
  lemma {:induction false} ScopesCollideOnlyByUuid(scopes: Scopes, i: nat, j: nat)
    requires scopes.Valid() && scopes.next <= TOP_BIT && i < j < |scopes.given|
    requires scopes.given[i].scope == scopes.given[j].scope
    ensures Identity(scopes.given[i].backing) != None && Identity(scopes.given[j].backing) != None
    ensures |scopes.given[i].backing.uuid| == UUID_SIZE && |scopes.given[j].backing.uuid| == UUID_SIZE
    ensures SharedScope(scopes.given[i].backing.uuid) == SharedScope(scopes.given[j].backing.uuid)
  {
    assert Identity(scopes.given[i].backing) == None <==> scopes.given[i].scope < scopes.next;
    assert Identity(scopes.given[j].backing) == None <==> scopes.given[j].scope < scopes.next;
  }
}
