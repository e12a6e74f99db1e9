/**
 The owner's serving thread, as the object it is: the slots it has granted, and a mapping of the
 participant table. `Assign` answers one handshake and `Hangup` one closed socket; neither is
 interrupted here, and what the kernel answers to each byte probe is an input.
 */
module Assigner {
  import opened Options
  import opened Participants

  datatype Answer = ByteHeld | ByteFree | NoAnswer

  const MAX_PARTICIPANTS: nat := 64

  /** The assigner collects the record of slot `s`: somebody else's, and the byte proves it dead. */
  predicate Collectable(words: seq<Word>, own: nat, first: seq<Answer>, s: nat)
    requires s < |words| && s < |first|
  {
    words[s] != Free && s != own && first[s] == ByteFree
  }

  datatype Reclamation = Lively | Unknown | Reclaimable(observed: Word)

  /** The verdict on one slot: own slot first, then the word, and the kernel last. */
  function ReclamationVerdict(word: Word, own: nat, s: nat, probe: Answer): (r: Reclamation)
    ensures r.Reclaimable? <==> word != Free && s != own && probe == ByteFree
    ensures r.Reclaimable? ==> r.observed == word
  {
    if s == own then Lively
    else if word == Free then Unknown
    else match probe
      case ByteHeld => Lively
      case ByteFree => Reclaimable(word)
      case NoAnswer => Unknown
  }

  /** A handshake tries the slots of the table, and never more than its mask of grants has bits. */
  predicate Tried(words: seq<Word>, t: nat) {
    t < |words| && t < 64
  }

  predicate Grantable(words: seq<Word>, granted: set<nat>, own: nat, first: seq<Answer>, second: seq<Answer>, s: nat)
    requires s < |words| && s < |first| && s < |second|
  {
    s !in granted && (words[s] == Free || Collectable(words, own, first, s)) && second[s] != ByteHeld
  }

  /** How many of the first `n` slots hold a record that a sweep collects. */
  function Dead(words: seq<Word>, own: nat, probes: seq<Answer>, n: nat): nat
    requires n <= |words| == |probes|
  {
    if n == 0 then 0 else Dead(words, own, probes, n - 1) + (if Collectable(words, own, probes, n - 1) then 1 else 0)
  }

  /**
   What one handshake does: it grants the lowest slot that can be granted, or none if there is none, and
   on the way collects the dead records of the slots it has come past, and no others.
   */
  ghost predicate Assigned(words: seq<Word>, granted: set<nat>, own: nat, first: seq<Answer>, second: seq<Answer>,
                           slot: Option<nat>, words': seq<Word>, granted': set<nat>)
    requires |first| == |second| == |words|
  {
    && (match slot
        case Some(s) =>
          && Tried(words, s) && granted' == granted + {s}
          && Grantable(words, granted, own, first, second, s)
          && (forall t: nat {:trigger Tried(words, t)} :: Tried(words, t) && t < s
                ==> !Grantable(words, granted, own, first, second, t))
        case None =>
          && granted' == granted
          && (forall t: nat {:trigger Tried(words, t)} :: Tried(words, t)
                ==> !Grantable(words, granted, own, first, second, t)))
    && |words'| == |words|
    && (forall t :: 0 <= t < |words| ==>
          words'[t] == if Tried(words, t) && (slot.None? || t <= slot.value) && t !in granted
                          && Collectable(words, own, first, t)
                       then Free else words[t])
  }

  class SlotTable {
    const own: nat
    const words: array<Word>
    var granted: set<nat>

    constructor (own: nat, words: array<Word>)
      ensures this.own == own && this.words == words && granted == {}
    {
      this.own, this.words, granted := own, words, {};
    }

    /** One `compare_exchange(observed, FREE)`. */
    method Reclaim(s: nat, observed: Word) returns (ok: bool)
      requires s < words.Length
      modifies words
      ensures ok <==> old(words[s]) == observed
      ensures words[..] == if ok then old(words[..])[s := Free] else old(words[..])
    {
      ok := words[s] == observed;
      if ok {
        words[s] := Free;
      }
    }

    method Assign(first: seq<Answer>, second: seq<Answer>) returns (slot: Option<nat>)
      requires |first| == |second| == words.Length
      modifies this, words
      ensures Assigned(old(words[..]), old(granted), own, first, second, slot, words[..], granted)
    {
      var n := if words.Length < MAX_PARTICIPANTS then words.Length else MAX_PARTICIPANTS;
      for s := 0 to n
        invariant granted == old(granted)
        invariant forall t :: 0 <= t < s ==> !Grantable(old(words[..]), old(granted), own, first, second, t)
        invariant forall t :: 0 <= t < words.Length ==>
                    words[t] == if t < s && t !in old(granted) && Collectable(old(words[..]), own, first, t)
                                then Free else old(words[t])
      {
        if s in granted {
          continue;
        }
        if words[s] != Free {
          match ReclamationVerdict(words[s], own, s, first[s]) {
            case Reclaimable(observed) =>
              var ok := Reclaim(s, observed);
              if !ok {
                continue;
              }
            case Lively => continue;
            case Unknown => continue;
          }
        }
        if second[s] == ByteHeld {
          continue;
        }
        granted := granted + {s};
        return Some(s);
      }
      return None;
    }

    /** A sweep: the provably dead records are freed, all of them and no others, and counted. */
    method ReapParticipants(probes: seq<Answer>) returns (reaped: nat)
      requires |probes| == words.Length
      modifies words
      ensures forall t :: 0 <= t < words.Length ==>
                words[t] == if Collectable(old(words[..]), own, probes, t) then Free else old(words[t])
      ensures reaped == Dead(old(words[..]), own, probes, words.Length)
    {
      reaped := 0;
      ghost var was := words[..];
      for s := 0 to words.Length
        invariant forall t :: s <= t < words.Length ==> words[t] == was[t]
        invariant forall t :: 0 <= t < s ==> words[t] == if Collectable(was, own, probes, t) then Free else was[t]
        invariant reaped == Dead(was, own, probes, s)
      {
        match ReclamationVerdict(words[s], own, s, probes[s]) {
          case Reclaimable(observed) =>
            var ok := Reclaim(s, observed);
            if ok {
              reaped := reaped + 1;
            }
          case _ =>
        }
      }
    }

    /** The client granted `slot` closed its socket. */
    method Hangup(slot: nat)
      requires slot < words.Length
      modifies this, words
      ensures granted == old(granted) - {slot}
      ensures words[..] == old(words[..])[slot := Free]
    {
      var observed := words[slot];
      if observed != Free {
        var _ := Reclaim(slot, observed);
      }
      granted := granted - {slot};
    }
  }

  /** The kernel answers, and answers the truth: `held` are the slots whose byte somebody holds. */
  predicate Truthful(held: set<nat>, answers: seq<Answer>) {
    forall s :: 0 <= s < |answers| ==> answers[s] == if s in held then ByteHeld else ByteFree
  }

  /**
   No wedge: when the kernel answers, a slot cannot be granted only because it is already granted,
   because its byte is held, or because it holds the owner's own record. What a dead participant
   left in its record never counts.
   */
  lemma {:induction false} DeadRecordsNeverRefuse(words: seq<Word>, granted: set<nat>, own: nat, held: set<nat>,
                               first: seq<Answer>, second: seq<Answer>, s: nat)
    requires |first| == |second| && s < |first| <= |words| && Truthful(held, first) && Truthful(held, second)
    ensures Grantable(words, granted, own, first, second, s)
            <==> s !in granted && s !in held && !(s == own && words[s] != Free)
  {
  }

  lemma {:induction false} FewerThanRange(n: nat, taken: set<nat>) returns (s: nat)
    requires |taken| < n
    ensures s < n && s !in taken
  {
    if n - 1 in taken {
      s := FewerThanRange(n - 1, taken - {n - 1});
    } else {
      s := n - 1;
    }
  }

  /**
   So however many participants were killed before, a handshake is refused only when each of the first 64
   slots of the table is granted, or has its byte held, or holds the owner's own record.
   */
  lemma {:induction false} ARefusalMeansAFullHouse(words: seq<Word>, granted: set<nat>, own: nat, held: set<nat>,
                                first: seq<Answer>, second: seq<Answer>)
    requires |first| == |second| == |words| && Truthful(held, first) && Truthful(held, second)
    requires forall t: nat :: t < |words| && t < 64 ==> !Grantable(words, granted, own, first, second, t)
    ensures forall t: nat :: t < |words| && t < 64 ==> t in granted || t in held || (t == own && words[t] != Free)
    ensures |granted + held + {own}| >= if |words| < 64 then |words| else 64
  {
    forall t: nat | t < |words| && t < 64
      ensures t in granted || t in held || (t == own && words[t] != Free)
    {
      DeadRecordsNeverRefuse(words, granted, own, held, first, second, t);
    }
    var n := if |words| < 64 then |words| else 64;
    if |granted + held + {own}| < n {
      var s := FewerThanRange(n, granted + held + {own});
      assert false;
    }
  }

  /** And the other way: if one of the first 64 slots of the table is none of these, some slot is granted. */
  lemma {:induction false} ARoomMeansAGrant(words: seq<Word>, granted: set<nat>, own: nat, held: set<nat>,
                                first: seq<Answer>, second: seq<Answer>, slot: Option<nat>,
                                words': seq<Word>, granted': set<nat>, t: nat)
    requires |first| == |second| == |words| && Truthful(held, first) && Truthful(held, second)
    requires Assigned(words, granted, own, first, second, slot, words', granted')
    requires t < |words| && t < 64 && t !in granted && t !in held && (t == own ==> words[t] == Free)
    ensures slot.Some? && slot.value <= t && slot.value !in granted && slot.value !in held
    ensures granted' == granted + {slot.value}
  {
    assert Tried(words, t);
    DeadRecordsNeverRefuse(words, granted, own, held, first, second, t);
    if slot.Some? {
      DeadRecordsNeverRefuse(words, granted, own, held, first, second, slot.value);
    }
  }
}
