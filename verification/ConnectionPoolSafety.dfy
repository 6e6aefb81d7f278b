/** What every interleaving of the slot pool keeps. */
module ConnectionPoolSafety {
  import opened Options
  import opened ConnectionPool

  // ---------- Counting available slots ----------

  lemma {:induction false} AvailBound(slots: SlotTable, lo: nat, hi: nat)
    requires lo <= hi <= TABLE_SIZE
    ensures Avail(slots, lo, hi) <= hi - lo
    decreases hi
  {
    if lo < hi { AvailBound(slots, lo, hi - 1); }
  }

  lemma {:induction false} AvailSplit(slots: SlotTable, lo: nat, mid: nat, hi: nat)
    requires lo <= mid <= hi <= TABLE_SIZE
    ensures Avail(slots, lo, hi) == Avail(slots, lo, mid) + Avail(slots, mid, hi)
    decreases hi
  {
    if mid < hi { AvailSplit(slots, lo, mid, hi - 1); }
  }

  lemma {:induction false} AvailUpdate(slots: SlotTable, i: SlotIndex, slot: Slot, lo: nat, hi: nat)
    requires hi <= TABLE_SIZE
    ensures var slots': SlotTable := slots[i := slot];
            Avail(slots', lo, hi) == Avail(slots, lo, hi)
              + if lo <= i < hi then
                  (if slot.status.Available? then 1 else 0) - (if slots[i].status.Available? then 1 else 0)
                else 0
    decreases hi
  {
    if lo < hi { AvailUpdate(slots, i, slot, lo, hi - 1); }
  }

  lemma {:induction false} AvailPositive(slots: SlotTable, lo: nat, hi: nat)
    requires hi <= TABLE_SIZE
    ensures Avail(slots, lo, hi) > 0 <==> exists j :: lo <= j < hi && slots[j].status.Available?
    decreases hi
  {
    if lo < hi { AvailPositive(slots, lo, hi - 1); }
  }

  // ---------- The pool invariant ----------

  ghost predicate TailFree(max: int, s: State)
    requires Config(max)
  {
    forall j :: max <= j < TABLE_SIZE ==> s.slots[j].status.Available?
  }

  // Enough room lies at or above the search index.
  ghost predicate RoomAhead(max: int, s: State)
    requires Config(max)
  {
    s.connindex <= max && Avail(s.slots, s.connindex, max) >= max - s.conncount
  }

  ghost predicate PcInv(max: int, s: State)
    requires Config(max)
  {
    match s.pc
    case LoopHead => s.conncount < max ==> RoomAhead(max, s)
    case Scanning(i) =>
      && i >= -1
      && (i < max ==>
            && i < s.connindex <= max
            && (s.connindex < max ==> s.slots[s.connindex].status.Available?)
            && Avail(s.slots, i + 1, s.connindex) <= s.timeouts)
    case Searching(f) =>
      && RoomAhead(max, s)
      && (f.Some? ==> Avail(s.slots, s.connindex, max) > 0)
      && (s.conncount >= max && s.connindex < max && f.None? ==> s.slots[s.connindex].status.Available?)
    case Accepting(f) =>
      && RoomAhead(max, s)
      && (f.None? ==> s.conncount >= max)
      && (f.Some? ==> f.value == s.connindex < max && s.slots[f.value].status.Available?)
    case Creating(i) =>
      RoomAhead(max, s) && i == s.connindex < max && s.slots[i].status.Active?
    case Stopped => true
  }

  ghost predicate PoolInv(max: int, s: State)
    requires Config(max)
  {
    && TailFree(max, s)
    && s.conncount == Occupied(s.slots, max) + s.timeouts
    && PcInv(max, s)
  }

  // ---------- Workers and slots ----------

  // Worker w stands to its slot exactly as its phase says.
  ghost predicate WorkerInv(s: State, w: nat)
    requires w < |s.workers|
  {
    var wk := s.workers[w];
    var slot := s.slots[wk.slot];
    match wk.phase
    case Serving =>
      slot.status.Active? && slot.thread == w && slot.fd == wk.accepted && s.pc != Creating(wk.slot)
    case Closed(fd) =>
      slot.status.Active? && slot.thread == w && slot.fd == wk.accepted == fd && s.pc != Creating(wk.slot)
    case Finished(fd) => slot.status.Inactive? && slot.thread == w && fd == wk.accepted
    case Joined(fd) => fd == wk.accepted
    case Cancelled => true
  }

  // An occupied slot has its worker.
  ghost predicate SlotInv(s: State, i: SlotIndex) {
    var slot := s.slots[i];
    match slot.status
    case Available => true
    case Active =>
      s.pc == Creating(i)
      || (slot.thread < |s.workers| && s.workers[slot.thread].slot == i && s.workers[slot.thread].Live())
    case Inactive =>
      slot.thread < |s.workers| && s.workers[slot.thread].slot == i && s.workers[slot.thread].phase.Finished?
  }

  // The join log holds each joined worker once and nobody else.
  ghost predicate JoinInv(s: State) {
    && (forall w: nat :: w < |s.workers| ==>
          multiset(s.joins)[w] == if s.workers[w].phase.Joined? then 1 else 0)
    && (forall k :: 0 <= k < |s.joins| ==> s.joins[k] < |s.workers|)
  }

  ghost predicate OwnInv(s: State) {
    && (forall w: nat :: w < |s.workers| ==> WorkerInv(s, w))
    && (forall i: SlotIndex :: SlotInv(s, i))
    && JoinInv(s)
  }

  ghost predicate Inv(max: int, s: State)
    requires Config(max)
  {
    PoolInv(max, s) && OwnInv(s)
  }

  // ---------- Preservation ----------

  lemma InitInv(max: int)
    requires Config(max)
    ensures Inv(max, Init())
  {
    InitPool(max);
    InitOwners(max);
  }

  lemma InitPool(max: int)
    requires Config(max)
    ensures PoolInv(max, Init())
  {
    AllAvailable(Init().slots, max);
  }

  lemma InitOwners(max: int)
    requires Config(max)
    ensures OwnInv(Init())
  {
  }

  lemma {:induction false} AllAvailable(slots: SlotTable, hi: nat)
    requires hi <= TABLE_SIZE && forall j :: 0 <= j < hi ==> slots[j].status.Available?
    ensures Avail(slots, 0, hi) == hi
    decreases hi
  {
    if hi > 0 { AllAvailable(slots, hi - 1); }
  }

  lemma VisitPool(max: int, s: State, expired: bool)
    requires Config(max) && Inv(max, s) && Enabled(max, s, Visit(expired))
    ensures PoolInv(max, Apply(max, s, Visit(expired)))
  {
    hide OwnInv;
    var i := s.pc.i;
    var s' := Apply(max, s, Visit(expired));
    assert s.slots[i].status.Available? || i < max;
    AvailUpdate(s.slots, i, s.slots[i].(status := Available), 0, max);
    if i < max {
      AvailUpdate(s.slots, i, s.slots[i].(status := Available), i + 1, s.connindex);
      AvailUpdate(s.slots, i, s.slots[i].(status := Available), i, s.connindex);
      AvailSplit(s'.slots, i, i + 1, s.connindex);
    }
  }

  lemma EndScanPool(max: int, s: State)
    requires Config(max) && Inv(max, s) && Enabled(max, s, EndScan)
    ensures PoolInv(max, Apply(max, s, EndScan))
  {
    AvailSplit(s.slots, 0, s.connindex, max);
    AvailBound(s.slots, 0, s.connindex);
  }

  lemma SearchPool(max: int, s: State, e: Event)
    requires Config(max) && Inv(max, s) && Enabled(max, s, e)
    requires e.Begin? || e.Probe? || e.EndSearch? || e.Skip?
    ensures PoolInv(max, Apply(max, s, e))
  {
    AvailBound(s.slots, 0, max);
    if e.Probe? {
      AvailSplit(s.slots, s.connindex, s.connindex + 1, max);
    }
  }

  lemma AcceptPool(max: int, s: State, e: Event)
    requires Config(max) && Inv(max, s) && Enabled(max, s, e)
    requires e.AcceptOk? || e.AcceptRetry? || e.AcceptFatal? || e.CreateOk? || e.CreateFail?
    ensures PoolInv(max, Apply(max, s, e))
  {
    var s' := Apply(max, s, e);
    var i := s.connindex;
    assert s'.slots == s.slots[i := s'.slots[i]];
    AvailUpdate(s.slots, i, s'.slots[i], 0, max);
    AvailUpdate(s.slots, i, s'.slots[i], i, max);
  }

  lemma WorkerPool(max: int, s: State, e: Event)
    requires Config(max) && Inv(max, s) && Enabled(max, s, e)
    requires e.WorkerClose? || e.WorkerFinish?
    ensures PoolInv(max, Apply(max, s, e))
  {
    var s' := Apply(max, s, e);
    assert WorkerInv(s, e.w);
    if e.WorkerFinish? {
      var i := s.workers[e.w].slot;
      AvailUpdate(s.slots, i, s'.slots[i], 0, max);
      AvailUpdate(s.slots, i, s'.slots[i], s.connindex, max);
      if s.pc.Scanning? && s.pc.i < max { AvailUpdate(s.slots, i, s'.slots[i], s.pc.i + 1, s.connindex); }
    }
  }

  lemma StepPool(max: int, s: State, e: Event)
    requires Config(max) && Inv(max, s) && Enabled(max, s, e)
    ensures PoolInv(max, Apply(max, s, e))
  {
    match e
    case Visit(x) => VisitPool(max, s, x);
    case EndScan => EndScanPool(max, s);
    case Begin => SearchPool(max, s, e);
    case Probe => SearchPool(max, s, e);
    case EndSearch => SearchPool(max, s, e);
    case Skip => SearchPool(max, s, e);
    case WorkerClose(_) => WorkerPool(max, s, e);
    case WorkerFinish(_) => WorkerPool(max, s, e);
    case _ => AcceptPool(max, s, e);
  }

  // Rewriting one slot that no other worker owns leaves every other worker's standing as it was.
  lemma VisitWorkers(max: int, s: State, expired: bool)
    requires Config(max) && Inv(max, s) && Enabled(max, s, Visit(expired))
    ensures OwnInv(Apply(max, s, Visit(expired)))
  {
    var s' := Apply(max, s, Visit(expired));
    forall w: nat | w < |s'.workers| ensures WorkerInv(s', w) { VisitKeepsWorker(max, s, expired, w); }
    forall j: SlotIndex ensures SlotInv(s', j) { VisitKeepsSlot(max, s, expired, j); }
    VisitKeepsJoins(max, s, expired);
  }

  lemma VisitKeepsWorker(max: int, s: State, expired: bool, w: nat)
    requires Config(max) && Inv(max, s) && Enabled(max, s, Visit(expired)) && w < |s.workers|
    ensures WorkerInv(Apply(max, s, Visit(expired)), w)
  {
    hide PoolInv, JoinInv;
    assert SlotInv(s, s.pc.i) && WorkerInv(s, w);
  }

  lemma VisitKeepsSlot(max: int, s: State, expired: bool, j: SlotIndex)
    requires Config(max) && Inv(max, s) && Enabled(max, s, Visit(expired))
    ensures SlotInv(Apply(max, s, Visit(expired)), j)
  {
    hide PoolInv, JoinInv;
    assert SlotInv(s, s.pc.i) && SlotInv(s, j);
  }

  lemma VisitKeepsJoins(max: int, s: State, expired: bool)
    requires Config(max) && Inv(max, s) && Enabled(max, s, Visit(expired))
    ensures JoinInv(Apply(max, s, Visit(expired)))
  {
    hide PoolInv, WorkerInv;
    var s' := Apply(max, s, Visit(expired));
    var t := s.slots[s.pc.i].thread;
    assert SlotInv(s, s.pc.i);
    if s.slots[s.pc.i].status.Inactive? {
      assert multiset(s'.joins) == multiset(s.joins) + multiset{t};
    }
  }

  lemma AcceptorWorkers(max: int, s: State, e: Event)
    requires Config(max) && Inv(max, s) && Enabled(max, s, e)
    requires !e.Visit? && !e.WorkerClose? && !e.WorkerFinish?
    ensures OwnInv(Apply(max, s, e))
  {
    var s' := Apply(max, s, e);
    forall w: nat | w < |s'.workers| ensures WorkerInv(s', w) {
      if w < |s.workers| { assert WorkerInv(s, w); }
    }
    forall j: SlotIndex ensures SlotInv(s', j) { assert SlotInv(s, j); }
    if e.CreateOk? {
      assert |s.workers| !in s.joins;
    }
  }

  lemma WorkerWorkers(max: int, s: State, e: Event)
    requires Config(max) && Inv(max, s) && Enabled(max, s, e)
    requires e.WorkerClose? || e.WorkerFinish?
    ensures OwnInv(Apply(max, s, e))
  {
    var s' := Apply(max, s, e);
    assert WorkerInv(s, e.w);
    forall w: nat | w < |s'.workers| ensures WorkerInv(s', w) { assert WorkerInv(s, w); }
    forall j: SlotIndex ensures SlotInv(s', j) { assert SlotInv(s, j); }
  }

  lemma StepInv(max: int, s: State, e: Event)
    requires Config(max) && Inv(max, s) && Enabled(max, s, e)
    ensures Inv(max, Apply(max, s, e))
  {
    StepPool(max, s, e);
    if e.Visit? {
      VisitWorkers(max, s, e.expired);
    } else if e.WorkerClose? || e.WorkerFinish? {
      WorkerWorkers(max, s, e);
    } else {
      AcceptorWorkers(max, s, e);
    }
  }

  lemma {:induction false} RunInv(max: int, s: State, es: seq<Event>)
    requires Config(max) && Inv(max, s) && IsRun(max, s, es)
    ensures Inv(max, Exec(max, s, es))
    decreases |es|
  {
    if es != [] {
      StepInv(max, s, es[0]);
      RunInv(max, Apply(max, s, es[0]), es[1..]);
    }
  }

  // ---------- Safety over every run ----------

  // Whatever the interleaving, with or without timeouts: when the acceptor is about to
  // accept, the chosen slot is an available one of the pool, and no slot is chosen only
  // when the pool counts as full.
  lemma AcceptsOnlyIntoAvailableSlots(max: int, es: seq<Event>)
    requires Config(max) && IsRun(max, Init(), es)
    ensures var s := Exec(max, Init(), es);
            s.pc.Accepting? ==>
              && (s.pc.f.Some? ==> s.pc.f.value < max && s.slots[s.pc.f.value].status.Available?)
              && (s.pc.f.None? ==> s.conncount >= max)
  {
    InitInv(max);
    RunInv(max, Init(), es);
  }

  lemma LiveWorkersHaveTheirOwnSlots(max: int, es: seq<Event>, v: nat, w: nat)
    requires Config(max) && IsRun(max, Init(), es)
    requires v < |Exec(max, Init(), es).workers| && w < |Exec(max, Init(), es).workers| && v != w
    requires Exec(max, Init(), es).workers[v].Live() && Exec(max, Init(), es).workers[w].Live()
    ensures Exec(max, Init(), es).workers[v].slot != Exec(max, Init(), es).workers[w].slot
  {
    InitInv(max);
    RunInv(max, Init(), es);
    var s := Exec(max, Init(), es);
    assert WorkerInv(s, v) && WorkerInv(s, w);
  }

  // The connection counter counts the occupied slots and every timeout that ever fired; so
  // without timeouts it stays within the pool, and the scan never leaves the slot table as
  // long as at most 255 - max threads have been timed out.
  lemma CounterIsOccupancyPlusTimeouts(max: int, es: seq<Event>)
    requires Config(max) && IsRun(max, Init(), es)
    ensures var s := Exec(max, Init(), es);
            && s.conncount == Occupied(s.slots, max) + s.timeouts
            && 0 <= Occupied(s.slots, max) <= max
            && (s.timeouts == 0 ==> 0 <= s.conncount <= max)
            && (s.timeouts < TABLE_SIZE - max && s.pc.LoopHead? ==> s.conncount < TABLE_SIZE)
            && s.slots[max].status.Available?
  {
    InitInv(max);
    RunInv(max, Init(), es);
    AvailBound(Exec(max, Init(), es).slots, 0, max);
  }

  lemma RoomAtTheLoopHead(max: int, es: seq<Event>)
    requires Config(max) && IsRun(max, Init(), es)
    ensures var s := Exec(max, Init(), es);
            s.pc.LoopHead? && s.conncount < max ==>
              && s.connindex <= max
              && Avail(s.slots, s.connindex, max) >= max - s.conncount
              && exists j :: s.connindex <= j < max && s.slots[j].status.Available?
  {
    InitInv(max);
    RunInv(max, Init(), es);
    var s := Exec(max, Init(), es);
    if s.pc.LoopHead? && s.conncount < max { AvailPositive(s.slots, s.connindex, max); }
  }

  // ---------- A full pool recovers ----------

  // The part of a run from a loop head up to the acceptor's next accept.
  ghost predicate UpToAccept(max: int, s: State, es: seq<Event>)
    requires Config(max) && IsRun(max, s, es)
    decreases |es|
  {
    es == [] || (!s.pc.Accepting? && UpToAccept(max, Apply(max, s, es[0]), es[1..]))
  }

  // Slot k was not in use when the scan began and has not been lost since.
  ghost predicate Recovering(max: int, s: State, k: nat)
    requires Config(max) && k < max
  {
    match s.pc
    case LoopHead => s.conncount >= max && !s.slots[k].status.Active?
    case Scanning(i) => if i >= k then !s.slots[k].status.Active? else s.connindex <= k
    case Searching(f) => f.None? && s.connindex < max && s.slots[s.connindex].status.Available?
    case Accepting(f) => f.Some? && s.slots[f.value].status.Available?
    case _ => false
  }

  lemma RecoveringStep(max: int, s: State, e: Event, k: nat)
    requires Config(max) && k < max && Inv(max, s) && Enabled(max, s, e)
    requires Recovering(max, s, k) && !s.pc.Accepting?
    ensures Recovering(max, Apply(max, s, e), k)
  {
    if e.WorkerClose? || e.WorkerFinish? { assert WorkerInv(s, e.w); }
  }

  lemma {:induction false} RecoveringRun(max: int, s: State, es: seq<Event>, k: nat)
    requires Config(max) && k < max && Inv(max, s) && IsRun(max, s, es)
    requires Recovering(max, s, k) && UpToAccept(max, s, es)
    ensures Recovering(max, Exec(max, s, es), k)
    decreases |es|
  {
    if es != [] {
      RecoveringStep(max, s, es[0], k);
      StepInv(max, s, es[0]);
      RecoveringRun(max, Apply(max, s, es[0]), es[1..], k);
    }
  }

  // If the pool counts as full and some slot of it is not in use, because its worker has gone
  // inactive or was timed out, then whatever the others do meanwhile, this one scan ends with
  // an available slot chosen.
  lemma OneScanFreesAFullPool(max: int, es: seq<Event>, fs: seq<Event>, k: nat)
    requires Config(max) && k < max && IsRun(max, Init(), es)
    requires var s := Exec(max, Init(), es);
             && s.pc.LoopHead? && s.conncount >= max && !s.slots[k].status.Active?
             && IsRun(max, s, fs) && UpToAccept(max, s, fs) && Exec(max, s, fs).pc.Accepting?
    ensures var s := Exec(max, Exec(max, Init(), es), fs);
            s.pc.f.Some? && s.slots[s.pc.f.value].status.Available?
  {
    InitInv(max);
    RunInv(max, Init(), es);
    RecoveringRun(max, Exec(max, Init(), es), fs, k);
  }

  // A visit to a slot in use, once its time is up, cancels the worker serving there, closes
  // its descriptor and makes the slot available, but leaves the counter and the search index
  // alone; before that, it changes nothing.
  lemma TimeoutByVisit(max: int, es: seq<Event>, k: nat, expired: bool)
    requires Config(max) && k < max && IsRun(max, Init(), es)
    requires var s := Exec(max, Init(), es); s.pc == Scanning(k) && s.slots[k].status.Active?
    ensures var s := Exec(max, Init(), es);
            var s', w := Apply(max, s, Visit(expired)), s.slots[k].thread;
            && w < |s.workers| && s.workers[w].slot == k && s.workers[w].Live()
            && s'.conncount == s.conncount && s'.connindex == s.connindex
            && if expired
               then s'.slots[k].status.Available? && s'.workers[w].phase.Cancelled?
                    && s.workers[w].accepted !in s'.open && s'.timeouts == s.timeouts + 1
               else s'.slots == s.slots && s'.workers == s.workers && s'.open == s.open && s'.timeouts == s.timeouts
  {
    InitInv(max);
    RunInv(max, Init(), es);
    var s := Exec(max, Init(), es);
    assert SlotInv(s, k);
    assert WorkerInv(s, s.slots[k].thread);
  }

  // A slot that is not in use stays so until something is accepted.
  lemma {:induction false} UnusedUntilAccept(max: int, s: State, es: seq<Event>, k: nat)
    requires Config(max) && k < max && IsRun(max, s, es) && !s.slots[k].status.Active?
    requires forall i :: 0 <= i < |es| ==> !es[i].AcceptOk?
    ensures !Exec(max, s, es).slots[k].status.Active?
    decreases |es|
  {
    if es != [] {
      assert !es[0].AcceptOk?;
      UnusedUntilAccept(max, Apply(max, s, es[0]), es[1..], k);
    }
  }

  // So a full pool whose worker hangs recovers at the scan after the one that times it out:
  // from there to the next loop head, and through the next scan.
  lemma HungPoolRecovers(max: int, es: seq<Event>, fs: seq<Event>, gs: seq<Event>, k: nat)
    requires Config(max) && k < max && IsRun(max, Init(), es) && Exec(max, Init(), es).pc == Scanning(k)
    requires IsRun(max, Exec(max, Init(), es), [Visit(true)] + fs)
    requires forall i :: 0 <= i < |fs| ==> !fs[i].AcceptOk?
    requires var s := Exec(max, Exec(max, Init(), es), [Visit(true)] + fs);
             && s.pc.LoopHead? && s.conncount >= max
             && IsRun(max, s, gs) && UpToAccept(max, s, gs) && Exec(max, s, gs).pc.Accepting?
    ensures var s := Exec(max, Exec(max, Exec(max, Init(), es), [Visit(true)] + fs), gs);
            s.pc.f.Some? && s.slots[s.pc.f.value].status.Available?
  {
    hide UpToAccept;
    var s := Exec(max, Init(), es);
    InitInv(max);
    RunInv(max, Init(), es);
    assert ([Visit(true)] + fs)[1..] == fs;
    var s' := Apply(max, s, Visit(true));
    StepInv(max, s, Visit(true));
    UnusedUntilAccept(max, s', fs, k);
    RunInv(max, s', fs);
    RecoveringRun(max, Exec(max, s', fs), gs, k);
  }

  // ---------- What becomes of each thread and descriptor ----------

  // Every spawned worker is exactly one of running in its slot, waiting there to be
  // joined, joined once, or cancelled; and whatever it closed is what was accepted for it.
  lemma EveryWorkerIsAccountedFor(max: int, es: seq<Event>, w: nat)
    requires Config(max) && IsRun(max, Init(), es) && w < |Exec(max, Init(), es).workers|
    ensures var s := Exec(max, Init(), es);
            var wk := s.workers[w];
            var slot := s.slots[wk.slot];
            && (wk.Live() <==> slot.status.Active? && slot.thread == w && s.pc != Creating(wk.slot))
            && (wk.phase.Finished? <==> slot.status.Inactive? && slot.thread == w)
            && multiset(s.joins)[w] == (if wk.phase.Joined? then 1 else 0)
            && (wk.phase.Closed? || wk.phase.Finished? || wk.phase.Joined? ==> wk.phase.fd == wk.accepted)
            && (wk.phase.Cancelled? ==> s.timeouts > 0)
  {
    InitInv(max);
    RunInv(max, Init(), es);
    CancelledNeedsTimeout(max, Init(), es);
    var s := Exec(max, Init(), es);
    assert WorkerInv(s, w);
    assert SlotInv(s, s.workers[w].slot);
  }

  ghost predicate NoneCancelled(s: State) {
    s.timeouts > 0 || forall w :: 0 <= w < |s.workers| ==> !s.workers[w].phase.Cancelled?
  }

  lemma {:induction false} CancelledNeedsTimeout(max: int, s: State, es: seq<Event>)
    requires Config(max) && IsRun(max, s, es) && NoneCancelled(s)
    ensures NoneCancelled(Exec(max, s, es))
    decreases |es|
  {
    if es != [] { CancelledNeedsTimeout(max, Apply(max, s, es[0]), es[1..]); }
  }

  // The descriptor the acceptor holds between accepting it and starting its thread.
  ghost function InHand(s: State): set<int> {
    if s.pc.Creating? then {s.slots[s.pc.slot].fd} else {}
  }

  ghost function Served(workers: seq<Worker>): set<int> {
    set w | 0 <= w < |workers| && workers[w].phase.Serving? :: workers[w].accepted
  }

  ghost predicate Distinct(workers: seq<Worker>) {
    forall v, w :: 0 <= v < w < |workers| && workers[v].phase.Serving? && workers[w].phase.Serving? ==>
      workers[v].accepted != workers[w].accepted
  }

  // As long as no thread has been timed out, the open descriptors are those a worker still
  // serves, the one in the acceptor's hand and those whose thread could not be created.
  ghost predicate DescriptorInv(s: State) {
    s.timeouts == 0 ==>
      && s.open == s.leaked + InHand(s) + Served(s.workers)
      && s.leaked !! InHand(s)
      && Served(s.workers) !! s.leaked + InHand(s)
      && Distinct(s.workers)
  }

  lemma ServedAfterClose(workers: seq<Worker>, w: nat, fd: int)
    requires w < |workers| && workers[w].phase.Serving? && Distinct(workers)
    ensures Served(SetPhase(workers, w, Closed(fd))) == Served(workers) - {workers[w].accepted}
    ensures Distinct(SetPhase(workers, w, Closed(fd)))
  {
    var workers' := SetPhase(workers, w, Closed(fd));
    forall x | x in Served(workers) - {workers[w].accepted} ensures x in Served(workers') {
      var v :| 0 <= v < |workers| && workers[v].phase.Serving? && workers[v].accepted == x;
      assert workers'[v] == workers[v];
    }
  }

  lemma ServedUnchanged(workers: seq<Worker>, w: nat, phase: Phase)
    requires w < |workers| ==> !workers[w].phase.Serving?
    requires !phase.Serving?
    ensures Served(SetPhase(workers, w, phase)) == Served(workers)
    ensures Distinct(workers) ==> Distinct(SetPhase(workers, w, phase))
  {
    var workers' := SetPhase(workers, w, phase);
    forall x | x in Served(workers) ensures x in Served(workers') {
      var v :| 0 <= v < |workers| && workers[v].phase.Serving? && workers[v].accepted == x;
      assert workers'[v] == workers[v];
    }
  }

  lemma ServedAfterCreate(workers: seq<Worker>, wk: Worker)
    requires wk.phase.Serving? && Distinct(workers) && wk.accepted !in Served(workers)
    ensures Served(workers + [wk]) == Served(workers) + {wk.accepted} && Distinct(workers + [wk])
  {
    var workers' := workers + [wk];
    assert workers'[|workers|] == wk;
    forall x | x in Served(workers) ensures x in Served(workers') {
      var v :| 0 <= v < |workers| && workers[v].phase.Serving? && workers[v].accepted == x;
      assert workers'[v] == workers[v];
    }
  }

  lemma StepDescriptors(max: int, s: State, e: Event)
    requires Config(max) && Inv(max, s) && Enabled(max, s, e) && DescriptorInv(s)
    ensures DescriptorInv(Apply(max, s, e))
  {
    var s' := Apply(max, s, e);
    if s'.timeouts == 0 {
      if e.WorkerClose? {
        assert WorkerInv(s, e.w);
        ServedAfterClose(s.workers, e.w, s.slots[s.workers[e.w].slot].fd);
      } else if e.WorkerFinish? {
        assert WorkerInv(s, e.w);
        ServedUnchanged(s.workers, e.w, Finished(s.workers[e.w].phase.fd));
      } else if e.CreateOk? {
        ServedAfterCreate(s.workers, Worker(s.pc.slot, s.slots[s.pc.slot].fd, Serving));
      } else if e.Visit? {
        var t := s.slots[s.pc.i].thread;
        assert SlotInv(s, s.pc.i);
        if s.slots[s.pc.i].status.Inactive? {
          ServedUnchanged(s.workers, t, Joined(s.workers[t].phase.fd));
        }
      }
    }
  }

  lemma {:induction false} RunDescriptors(max: int, s: State, es: seq<Event>)
    requires Config(max) && Inv(max, s) && IsRun(max, s, es) && DescriptorInv(s)
    ensures DescriptorInv(Exec(max, s, es))
    decreases |es|
  {
    if es != [] {
      StepInv(max, s, es[0]);
      StepDescriptors(max, s, es[0]);
      RunDescriptors(max, Apply(max, s, es[0]), es[1..]);
    }
  }

  // Conservation of descriptors: without timeouts nothing is closed twice, closed for
  // somebody else, or lost, except when a thread could not be created.
  lemma DescriptorsAreConserved(max: int, es: seq<Event>)
    requires Config(max) && IsRun(max, Init(), es) && Exec(max, Init(), es).timeouts == 0
    ensures var s := Exec(max, Init(), es);
            && s.open == s.leaked + InHand(s) + Served(s.workers)
            && s.leaked !! InHand(s)
            && Served(s.workers) !! s.leaked + InHand(s)
            && Distinct(s.workers)
  {
    InitInv(max);
    RunDescriptors(max, Init(), es);
  }
}
