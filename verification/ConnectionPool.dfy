/** The thread-slot pool of src/server/multithread.c as an interleaved step system.

    One acceptor thread and any number of workers share a table of 256 slots.  Every
    shared access of the C code is one event; an event list is one interleaving. */
module ConnectionPool {

  import opened Options

  const TABLE_SIZE := 256

  type SlotIndex = i: int | 0 <= i < TABLE_SIZE

  datatype Status = Available | Active | Inactive

  // One entry of the slot table: its status, the descriptor last stored in it and the
  // thread last created for it.
  datatype Slot = Slot(status: Status, fd: int, thread: nat)

  type SlotTable = s: seq<Slot> | |s| == TABLE_SIZE
    witness seq(TABLE_SIZE, _ => Slot(Available, 0, 0))

  // The life of one spawned thread; the descriptor is the one it really closed.
  datatype Phase = Serving | Closed(fd: int) | Finished(fd: int) | Joined(fd: int) | Cancelled

  datatype Worker = Worker(slot: SlotIndex, accepted: int, phase: Phase)
  {
    predicate Live() { phase.Serving? || phase.Closed? }
  }

  // Where the acceptor stands in its endless loop.
  datatype Pc =
    | LoopHead
    | Scanning(i: int)
    | Searching(f: Option<SlotIndex>)
    | Accepting(f: Option<SlotIndex>)
    | Creating(slot: SlotIndex)
    | Stopped

  // "open", "leaked", "timeouts" and "joins" record what happened so far: the descriptors
  // the kernel holds open, those whose thread could not be created, the number of threads
  // cancelled, and the threads joined, in order.
  datatype State = State(
    slots: SlotTable,
    conncount: int,
    connindex: nat,
    pc: Pc,
    workers: seq<Worker>,
    open: set<int>,
    leaked: set<int>,
    timeouts: nat,
    joins: seq<nat>)

  datatype Event =
    | Begin                      // the test at the head of the loop
    | Visit(expired: bool)       // the scan looks at one slot
    | EndScan
    | Probe                      // the search looks at one slot
    | EndSearch
    | Skip                       // no slot was chosen
    | AcceptOk(fd: int)
    | AcceptRetry
    | AcceptFatal
    | CreateOk
    | CreateFail
    | WorkerClose(w: nat)        // a worker closes the descriptor in its slot
    | WorkerFinish(w: nat)       // a worker marks its slot inactive

  predicate Config(max: int) { 1 <= max < TABLE_SIZE }

  function Init(): State {
    State(seq(TABLE_SIZE, _ => Slot(Available, 0, 0)), 0, 0, LoopHead, [], {}, {}, 0, [])
  }

  predicate Enabled(max: int, s: State, e: Event) {
    match e
    case Begin => s.pc.LoopHead?
    case Visit(_) => s.pc.Scanning? && 0 <= s.pc.i < TABLE_SIZE
    case EndScan => s.pc.Scanning? && s.pc.i < 0
    case Probe => s.pc.Searching? && s.connindex < max
    case EndSearch => s.pc.Searching? && s.connindex >= max
    case Skip => s.pc.Accepting? && s.pc.f.None?
    case AcceptOk(fd) => s.pc.Accepting? && s.pc.f.Some? && fd >= 0 && fd !in s.open
    case AcceptRetry => s.pc.Accepting? && s.pc.f.Some?
    case AcceptFatal => s.pc.Accepting? && s.pc.f.Some?
    case CreateOk => s.pc.Creating?
    case CreateFail => s.pc.Creating?
    case WorkerClose(w) => w < |s.workers| && s.workers[w].phase.Serving?
    case WorkerFinish(w) => w < |s.workers| && s.workers[w].phase.Closed?
  }

  function SetStatus(slots: SlotTable, i: SlotIndex, status: Status): SlotTable {
    slots[i := slots[i].(status := status)]
  }

  function SetPhase(workers: seq<Worker>, w: nat, phase: Phase): seq<Worker> {
    if w < |workers| then workers[w := workers[w].(phase := phase)] else workers
  }

  // One slot of the scan: an available slot is remembered, an inactive one is reaped and
  // joined, an active one is killed once its time is up.
  function VisitSlot(s: State, i: SlotIndex, expired: bool): State {
    var t := s.slots[i].thread;
    var s' := s.(pc := Scanning(i - 1));
    match s.slots[i].status
    case Available =>
      s'.(connindex := i)
    case Inactive =>
      s'.(conncount := s.conncount - 1, connindex := i, slots := SetStatus(s.slots, i, Available),
          workers := if t < |s.workers| && s.workers[t].phase.Finished?
                     then SetPhase(s.workers, t, Joined(s.workers[t].phase.fd)) else s.workers,
          joins := s.joins + [t])
    case Active =>
      if expired then
        s'.(slots := SetStatus(s.slots, i, Available), workers := SetPhase(s.workers, t, Cancelled),
            open := s.open - {s.slots[i].fd}, timeouts := s.timeouts + 1)
      else s'
  }

  function Apply(max: int, s: State, e: Event): State
    requires Config(max) && Enabled(max, s, e)
  {
    match e
    case Begin =>
      s.(pc := if s.conncount >= max then Scanning(s.conncount) else Searching(None))
    case Visit(expired) => VisitSlot(s, s.pc.i, expired)
    case EndScan => s.(pc := Searching(None))
    case Probe =>
      if s.slots[s.connindex].status.Available? then s.(pc := Accepting(Some(s.connindex)))
      else s.(pc := Searching(Some(s.connindex)), connindex := s.connindex + 1)
    case EndSearch => s.(pc := Accepting(s.pc.f))
    case Skip => s.(pc := LoopHead)
    case AcceptOk(fd) =>
      var i := s.pc.f.value;
      s.(pc := Creating(i), slots := s.slots[i := Slot(Active, fd, s.slots[i].thread)],
         conncount := s.conncount + 1, open := s.open + {fd})
    case AcceptRetry =>
      var i := s.pc.f.value;
      s.(pc := LoopHead, slots := s.slots[i := s.slots[i].(fd := -1)])
    case AcceptFatal =>
      var i := s.pc.f.value;
      s.(pc := Stopped, slots := s.slots[i := s.slots[i].(fd := -1)])
    case CreateOk =>
      var i := s.pc.slot;
      s.(pc := LoopHead, slots := s.slots[i := s.slots[i].(thread := |s.workers|)],
         workers := s.workers + [Worker(i, s.slots[i].fd, Serving)])
    case CreateFail =>
      var i := s.pc.slot;
      s.(pc := LoopHead, slots := SetStatus(s.slots, i, Available), conncount := s.conncount - 1,
         leaked := s.leaked + {s.slots[i].fd})
    case WorkerClose(w) =>
      var fd := s.slots[s.workers[w].slot].fd;
      s.(workers := SetPhase(s.workers, w, Closed(fd)), open := s.open - {fd})
    case WorkerFinish(w) =>
      s.(workers := SetPhase(s.workers, w, Finished(s.workers[w].phase.fd)),
         slots := SetStatus(s.slots, s.workers[w].slot, Inactive))
  }

  // es is an interleaving that can really happen from s.
  predicate IsRun(max: int, s: State, es: seq<Event>)
    requires Config(max)
    decreases |es|
  {
    es == [] || (Enabled(max, s, es[0]) && IsRun(max, Apply(max, s, es[0]), es[1..]))
  }

  function Exec(max: int, s: State, es: seq<Event>): State
    requires Config(max) && IsRun(max, s, es)
    decreases |es|
  {
    if es == [] then s else Exec(max, Apply(max, s, es[0]), es[1..])
  }

  // The number of available slots in [lo, hi).
  function Avail(slots: SlotTable, lo: nat, hi: nat): nat
    requires hi <= TABLE_SIZE
    decreases hi
  {
    if hi <= lo then 0
    else Avail(slots, lo, hi - 1) + if slots[hi - 1].status.Available? then 1 else 0
  }

  // The number of slots of the pool that are not available.
  function Occupied(slots: SlotTable, max: nat): int
    requires max <= TABLE_SIZE
  {
    max - Avail(slots, 0, max)
  }
}
