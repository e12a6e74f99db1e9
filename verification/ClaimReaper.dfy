/** The sweep over every edge's claim: what `reap_claims` revokes, when nothing interrupts it. */
module ClaimReaper {
  import opened Options
  import Claims

  /** The slot an owner word names; neither a free word nor one still being claimed names any. */
  function SlotOf(word: Claims.Owner): Option<nat> {
    if word.Owned? then Some(word.slot) else None
  }

  /** What the kernel answers when an edge's lease byte is probed. */
  datatype Probe = LeaseHeld | LeaseFree | Unreadable

  /** The claim is somebody else's, in the sweep's scope, and its lease byte is provably free. */
  predicate Revocable(word: Claims.Owner, ownSlot: nat, onlySlot: Option<nat>, probe: Probe) {
    probe == LeaseFree &&
    match word
    case Vacant => false
    case Claiming => onlySlot == None
    case Owned(_, slot) => slot != ownSlot && (onlySlot == None || onlySlot == Some(slot))
  }

  function Revoked(words: seq<Claims.Owner>, ownSlot: nat, onlySlot: Option<nat>, probes: seq<Probe>): nat
    requires |words| == |probes|
  {
    if words == [] then 0
    else
      var n := |words| - 1;
      Revoked(words[..n], ownSlot, onlySlot, probes[..n])
      + (if Revocable(words[n], ownSlot, onlySlot, probes[n]) then 1 else 0)
  }

  class ClaimTable {
    const owners: array<Claims.Owner>
    const epochs: array<nat>

    constructor (owners: array<Claims.Owner>, epochs: array<nat>)
      ensures this.owners == owners && this.epochs == epochs
    {
      this.owners, this.epochs := owners, epochs;
    }

    /** The epoch moves before the owner word is cleared. */
    method Reap(edge: nat)
      requires edge < owners.Length == epochs.Length
      modifies owners, epochs
      ensures owners[..] == old(owners[..])[edge := Claims.Vacant]
      ensures epochs[..] == old(epochs[..])[edge := old(epochs[edge]) + 1]
    {
      epochs[edge] := epochs[edge] + 1;
      owners[edge] := Claims.Vacant;
    }

    /** Exactly the revocable claims are revoked, each loses its epoch, and all others keep word and epoch. */
    method ReapClaims(ownSlot: nat, onlySlot: Option<nat>, probes: seq<Probe>) returns (reaped: nat)
      requires |probes| == owners.Length == epochs.Length
      modifies owners, epochs
      ensures forall e :: 0 <= e < owners.Length ==>
                if Revocable(old(owners[e]), ownSlot, onlySlot, probes[e])
                then owners[e] == Claims.Vacant && epochs[e] == old(epochs[e]) + 1
                else owners[e] == old(owners[e]) && epochs[e] == old(epochs[e])
      ensures reaped == Revoked(old(owners[..]), ownSlot, onlySlot, probes)
      ensures forall e, epoch: nat :: 0 <= e < owners.Length && old(owners[e]) == Claims.Owned(epoch, ownSlot)
                ==> owners[e] == Claims.Owned(epoch, ownSlot) && epochs[e] == old(epochs[e])
    {
      reaped := 0;
      ghost var words := owners[..];
      for edge := 0 to owners.Length
        invariant forall e :: edge <= e < owners.Length ==> owners[e] == words[e] && epochs[e] == old(epochs[e])
        invariant forall e :: 0 <= e < edge ==>
                    if Revocable(words[e], ownSlot, onlySlot, probes[e])
                    then owners[e] == Claims.Vacant && epochs[e] == old(epochs[e]) + 1
                    else owners[e] == words[e] && epochs[e] == old(epochs[e])
        invariant reaped == Revoked(words[..edge], ownSlot, onlySlot, probes[..edge])
      {
        assert words[..edge + 1][..edge] == words[..edge] && probes[..edge + 1][..edge] == probes[..edge];
        var owner := owners[edge];
        if owner == Claims.Vacant {
          continue;
        }
        if SlotOf(owner) == Some(ownSlot) {
          continue;
        }
        if onlySlot != None && SlotOf(owner) != onlySlot {
          continue;
        }
        if probes[edge] != LeaseFree {
          continue;
        }
        Reap(edge);
        reaped := reaped + 1;
      }
      assert words[..owners.Length] == words && probes[..owners.Length] == probes;
    }
  }
}
