/**
 Participant slots: grant, register, reclaim.

 A participant takes the kernel lock byte of its slot and then publishes a record word,
 `FREE -> RESERVED -> LIVE(incarnation)`. It may die between any two of its steps; the kernel
 gives its byte and its socket back later, one at a time and in either order. Meanwhile sweepers
 and the owners' serving threads reclaim records with "load the word, probe the byte, CAS the
 word", and a serving thread that sees a client's socket close runs "load the word, CAS the word".

 Each step below is one atomic action; all choice (who moves, what the kernel answers) is in the
 step, so a run is a list of steps.
 */
module Participants {
  import opened Options

  /** A record's `state` word. The slot's counter mints the incarnations. */
  datatype Word = Free | Reserved | Live(inc: nat)

  /** Who holds a slot's lock byte. `Foreign` is a tool that takes a byte and never registers. */
  datatype Holder = Vacant | Foreign | Held(who: nat)

  /** How far one attach attempt has come. */
  datatype Phase =
    | Starting
    | Slotted(slot: nat)              // the owner named a slot
    | HasByte(slot: nat)              // holds the byte, no record yet
    | Reading(slot: nat)              // a read-only participant: byte, never a record
    | Filling(slot: nat)              // won FREE -> RESERVED
    | Numbered(slot: nat, inc: nat)   // drew its incarnation
    | Running(slot: nat, inc: nat)    // stored its live word
    | Leaving(slot: nat)              // record released, or refused: byte still held
    | Left

  /** The client's end of its connection, as the serving thread `server` sees it. */
  datatype Socket =
    | Unopened
    | Waiting(server: nat)
    | Granted(server: nat, slot: nat)
    | Shut(server: nat, slot: nat)    // closed, and the hangup not yet handled
    | Closed

  datatype Participant = Participant(alive: bool, phase: Phase, sock: Socket)

  datatype Sweep =
    | Idle
    | SawWord(slot: nat, word: Word)  // word loaded
    | SawFree(slot: nat, word: Word)  // then the byte read free
    | Peeked(slot: nat)               // byte read free first: only in the reversed protocol

  datatype Sweeper = Sweeper(own: nat, at: Sweep)

  datatype Task =
    | Resting
    | Judging(slot: nat, word: Word)
    | Judged(slot: nat, word: Word)
    | Offering(slot: nat)             // reads FREE: the second byte probe comes next
    | Hanging(client: nat, slot: nat, word: Word)

  /** A serving thread: `granted` are the slots it granted and has not seen hang up. */
  datatype Server = Server(own: nat, granted: set<nat>, task: Task)

  datatype State = State(
    byteFirst: bool,                  // sweepers probe before they load: the order the code rejects
    words: seq<Word>,
    minted: seq<seq<nat>>,            // minted[s][i - 1] drew incarnation i of slot s
    bytes: seq<Holder>,
    peers: seq<Participant>,
    sweepers: seq<Sweeper>,
    servers: seq<Server>)

  /** One participant's own actions. */
  datatype Act =
    | Connect(server: nat)
    | ReadReply
    | GiveUp
    | TakeByte
    | StayReader
    | Reserve
    | Mint
    | Publish
    | ReleaseRecord
    | DropByte
    | CloseSocket

  datatype SweepAct =
    | Load(slot: nat)
    | Probe(answered: bool)
    | Cas
    | Peek(slot: nat)
    | PeekLoad

  datatype ServeAct =
    | LoadSlot(slot: nat)
    | ProbeSlot(answered: bool)
    | CasSlot
    | Offer(client: nat, answered: bool)
    | HangupLoad(client: nat)
    | HangupCas

  datatype Step =
    | Peer(p: nat, act: Act)
    | Die(p: nat)
    | KernelDropsByte(p: nat, s: nat)
    | KernelClosesSocket(p: nat)
    | ForeignTake(s: nat)
    | ForeignDrop(s: nat)
    | Sweeps(j: nat, sweep: SweepAct)
    | Serve(p: nat)                   // a registered participant starts serving
    | Serves(k: nat, serve: ServeAct)

  // ---------------------------------------------------------------------------------------------
  // The transitions
  // ---------------------------------------------------------------------------------------------

  function Phased(st: State, p: nat, phase: Phase): State
    requires p < |st.peers|
  {
    st.(peers := st.peers[p := st.peers[p].(phase := phase)])
  }

  function Socketed(st: State, p: nat, sock: Socket): State
    requires p < |st.peers|
  {
    st.(peers := st.peers[p := st.peers[p].(sock := sock)])
  }

  function Worded(st: State, s: nat, w: Word): State
    requires s < |st.words|
  {
    st.(words := st.words[s := w])
  }

  function Byted(st: State, s: nat, h: Holder): State
    requires s < |st.bytes|
  {
    st.(bytes := st.bytes[s := h])
  }

  function Swept(st: State, j: nat, at: Sweep): State
    requires j < |st.sweepers|
  {
    st.(sweepers := st.sweepers[j := st.sweepers[j].(at := at)])
  }

  function Tasked(st: State, k: nat, task: Task): State
    requires k < |st.servers|
  {
    st.(servers := st.servers[k := st.servers[k].(task := task)])
  }

  predicate Slot(st: State, s: nat) {
    s < |st.words| && s < |st.minted| && s < |st.bytes|
  }

  predicate ActEnabled(st: State, p: nat, act: Act) {
    p < |st.peers| && st.peers[p].alive &&
    var ph := st.peers[p].phase;
    match act
    case Connect(k) => ph.Starting? && st.peers[p].sock == Unopened && k < |st.servers|
    case ReadReply => ph.Starting? && st.peers[p].sock.Granted?
    case GiveUp => ph.Starting? || ph.Slotted?
    case TakeByte => ph.Slotted? && Slot(st, ph.slot)
    case StayReader => ph.HasByte? && st.peers[p].sock.Granted?
    case Reserve => ph.HasByte? && Slot(st, ph.slot)
    case Mint => ph.Filling? && Slot(st, ph.slot)
    case Publish => ph.Numbered? && Slot(st, ph.slot)
    case ReleaseRecord => (ph.Running? || ph.Reading?) && Slot(st, ph.slot)
    case DropByte => ph.Leaving? && Slot(st, ph.slot)
    case CloseSocket => (ph.Leaving? || ph.Left?) && st.peers[p].sock.Granted?
  }

  predicate SweepEnabled(st: State, j: nat, sweep: SweepAct) {
    j < |st.sweepers| &&
    var at := st.sweepers[j].at;
    match sweep
    case Load(s) => !st.byteFirst && at.Idle? && Slot(st, s) && s != st.sweepers[j].own
    case Probe(_) => at.SawWord? && Slot(st, at.slot)
    case Cas => at.SawFree? && Slot(st, at.slot)
    case Peek(s) => st.byteFirst && at.Idle? && Slot(st, s) && s != st.sweepers[j].own
    case PeekLoad => at.Peeked? && Slot(st, at.slot)
  }

  predicate ServeEnabled(st: State, k: nat, serve: ServeAct) {
    k < |st.servers| &&
    var task := st.servers[k].task;
    match serve
    case LoadSlot(s) => task.Resting? && Slot(st, s) && s !in st.servers[k].granted
    case ProbeSlot(_) => task.Judging? && Slot(st, task.slot)
    case CasSlot => task.Judged? && Slot(st, task.slot)
    case Offer(p, _) => task.Offering? && Slot(st, task.slot) && p < |st.peers| && st.peers[p].sock == Waiting(k)
    case HangupLoad(p) =>
      task.Resting? && p < |st.peers| && st.peers[p].sock.Shut? && st.peers[p].sock.server == k &&
      Slot(st, st.peers[p].sock.slot)
    case HangupCas => task.Hanging? && task.client < |st.peers| && Slot(st, task.slot)
  }

  predicate Enabled(st: State, step: Step) {
    match step
    case Peer(p, act) => ActEnabled(st, p, act)
    case Die(p) => p < |st.peers| && st.peers[p].alive
    case KernelDropsByte(p, s) => p < |st.peers| && !st.peers[p].alive && Slot(st, s) && st.bytes[s] == Held(p)
    case KernelClosesSocket(p) => p < |st.peers| && !st.peers[p].alive && st.peers[p].sock.Granted?
    case ForeignTake(s) => Slot(st, s) && st.bytes[s] == Vacant
    case ForeignDrop(s) => Slot(st, s) && st.bytes[s] == Foreign
    case Sweeps(j, sweep) => SweepEnabled(st, j, sweep)
    case Serve(p) => p < |st.peers| && st.peers[p].alive && st.peers[p].phase.Running?
    case Serves(k, serve) => ServeEnabled(st, k, serve)
  }

  /** The record after one `compare_exchange(observed, FREE)`. */
  function Reclaimed(st: State, s: nat, observed: Word): State
    requires s < |st.words|
  {
    if st.words[s] == observed then Worded(st, s, Free) else st
  }

  function Acted(st: State, p: nat, act: Act): State
    requires ActEnabled(st, p, act)
  {
    var ph := st.peers[p].phase;
    match act
    case Connect(k) => Socketed(st, p, Waiting(k))
    case ReadReply => Phased(st, p, Slotted(st.peers[p].sock.slot))
    case GiveUp => Phased(st, p, Left)
    case TakeByte =>
      if st.bytes[ph.slot] == Vacant then Byted(Phased(st, p, HasByte(ph.slot)), ph.slot, Held(p))
      else Phased(st, p, Left)
    case StayReader => Phased(st, p, Reading(ph.slot))
    case Reserve =>
      if st.words[ph.slot] == Free then Worded(Phased(st, p, Filling(ph.slot)), ph.slot, Reserved)
      else Phased(st, p, Leaving(ph.slot))
    case Mint =>
      var drawn := st.minted[ph.slot];
      Phased(st, p, Numbered(ph.slot, |drawn| + 1)).(minted := st.minted[ph.slot := drawn + [p]])
    case Publish => Worded(Phased(st, p, Running(ph.slot, ph.inc)), ph.slot, Live(ph.inc))
    case ReleaseRecord =>
      var left := Phased(st, p, Leaving(ph.slot));
      if ph.Running? then Reclaimed(left, ph.slot, Live(ph.inc)) else left
    case DropByte => Byted(Phased(st, p, Left), ph.slot, Vacant)
    case CloseSocket => Socketed(st, p, Shut(st.peers[p].sock.server, st.peers[p].sock.slot))
  }

  function SweepApplied(st: State, j: nat, sweep: SweepAct): State
    requires SweepEnabled(st, j, sweep)
  {
    var at := st.sweepers[j].at;
    match sweep
    case Load(s) => Swept(st, j, if st.words[s].Free? then Idle else SawWord(s, st.words[s]))
    case Probe(answered) =>
      Swept(st, j, if answered && st.bytes[at.slot] == Vacant then SawFree(at.slot, at.word) else Idle)
    case Cas => Swept(Reclaimed(st, at.slot, at.word), j, Idle)
    case Peek(s) => Swept(st, j, if st.bytes[s] == Vacant then Peeked(s) else Idle)
    case PeekLoad =>
      Swept(st, j, if st.words[at.slot].Free? then Idle else SawFree(at.slot, st.words[at.slot]))
  }

  /** The hangup callback's last store: the client is forgotten and its slot may be granted again. */
  function Forgotten(st: State, k: nat, client: nat, s: nat): State
    requires k < |st.servers| && client < |st.peers|
  {
    var srv := st.servers[k];
    Socketed(st, client, Closed).(servers := st.servers[k := Server(srv.own, srv.granted - {s}, Resting)])
  }

  function ServeApplied(st: State, k: nat, serve: ServeAct): State
    requires ServeEnabled(st, k, serve)
  {
    var srv := st.servers[k];
    match serve
    case LoadSlot(s) =>
      Tasked(st, k, if st.words[s].Free? then Offering(s)
                    else if s == srv.own then Resting
                    else Judging(s, st.words[s]))
    case ProbeSlot(answered) =>
      Tasked(st, k, if answered && st.bytes[srv.task.slot] == Vacant then Judged(srv.task.slot, srv.task.word)
                    else Resting)
    case CasSlot =>
      Tasked(Reclaimed(st, srv.task.slot, srv.task.word), k,
             if st.words[srv.task.slot] == srv.task.word then Offering(srv.task.slot) else Resting)
    case Offer(p, answered) =>
      var s := srv.task.slot;
      // No answer reads as "not held": `is_held(slot).unwrap_or(false)`.
      if answered && st.bytes[s] != Vacant then Tasked(st, k, Resting)
      else Socketed(st, p, Granted(k, s)).(servers := st.servers[k := Server(srv.own, srv.granted + {s}, Resting)])
    case HangupLoad(p) =>
      var s := st.peers[p].sock.slot;
      if st.words[s].Free? then Forgotten(st, k, p, s) else Tasked(st, k, Hanging(p, s, st.words[s]))
    case HangupCas => Forgotten(Reclaimed(st, srv.task.slot, srv.task.word), k, srv.task.client, srv.task.slot)
  }

  function Apply(st: State, step: Step): State
    requires Enabled(st, step)
  {
    match step
    case Peer(p, act) => Acted(st, p, act)
    case Die(p) => st.(peers := st.peers[p := st.peers[p].(alive := false)])
    case KernelDropsByte(_, s) => Byted(st, s, Vacant)
    case KernelClosesSocket(p) => Socketed(st, p, Shut(st.peers[p].sock.server, st.peers[p].sock.slot))
    case ForeignTake(s) => Byted(st, s, Foreign)
    case ForeignDrop(s) => Byted(st, s, Vacant)
    case Sweeps(j, sweep) => SweepApplied(st, j, sweep)
    case Serve(p) => st.(servers := st.servers + [Server(st.peers[p].phase.slot, {}, Resting)])
    case Serves(k, serve) => ServeApplied(st, k, serve)
  }

  /** Where a run of `steps` from `st` ends, if each of its steps was possible. */
  function Exec(st: State, steps: seq<Step>): Option<State>
    decreases |steps|
  {
    if steps == [] then Some(st)
    else if Enabled(st, steps[0]) then Exec(Apply(st, steps[0]), steps[1..])
    else None
  }

  /**
   A new arena: every record free, and its creator, participant 0, holding byte 0. Any number of
   slots, of later participants and of sweepers, each sweeping on behalf of any slot.
   */
  ghost predicate Init(st: State) {
    && |st.words| > 0 && |st.minted| == |st.words| && |st.bytes| == |st.words|
    && (forall s :: 0 <= s < |st.words| ==> st.words[s] == Free && st.minted[s] == [])
    && (forall s :: 0 <= s < |st.bytes| ==> st.bytes[s] == if s == 0 then Held(0) else Vacant)
    && |st.peers| > 0 && st.peers[0] == Participant(true, HasByte(0), Unopened)
    && (forall p :: 1 <= p < |st.peers| ==> st.peers[p] == Participant(true, Starting, Unopened))
    && (forall j :: 0 <= j < |st.sweepers| ==> st.sweepers[j].at == Idle)
    && st.servers == []
  }
}
