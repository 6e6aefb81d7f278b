/** The acceptor loop of srv_multithread over the real slot array, with worker threads
    interfering between any two of its accesses.  What the rest of the world does is given
    in advance; each method is proved to make exactly the moves of the step system that this
    leads to, so everything proved of its runs holds of the loop. */
module Acceptor {
  import opened Options
  import opened ConnectionPool
  import opened ConnectionPoolSafety

  datatype AcceptOutcome = Accepted(fd: int, threadStarts: bool) | TryAgain | Failed

  // What the rest of the world does around one shared access: worker steps that come
  // first, whether the slot's time is up, and what accept() would answer.
  datatype Turn = Turn(before: seq<Event>, expired: bool, answer: AcceptOutcome)

  // The server so far: where it stands, how many turns of the world it used, and its events.
  datatype Game = Game(s: State, clock: nat, trace: seq<Event>)

  // ---------- Moves ----------

  function Did(max: int, g: Game, e: Event): Game
    requires Config(max) && Enabled(max, g.s, e)
  {
    Game(Apply(max, g.s, e), g.clock, g.trace + [e])
  }

  predicate WorkerCan(max: int, s: State, e: Event) {
    (e.WorkerClose? || e.WorkerFinish?) && Enabled(max, s, e)
  }

  // The workers' steps that are possible when they come, in order.
  function Interfered(max: int, g: Game, es: seq<Event>): (h: Game)
    requires Config(max)
    ensures h.s.pc == g.s.pc && h.s.connindex == g.s.connindex && h.clock == g.clock
    ensures h.s.open <= g.s.open && |h.s.workers| == |g.s.workers|
    ensures h.s.conncount == g.s.conncount && h.s.leaked == g.s.leaked
  {
    if es == [] then g
    else
      var h, e := Interfered(max, g, es[..|es| - 1]), es[|es| - 1];
      if WorkerCan(max, h.s, e) then Did(max, h, e) else h
  }

  // Whether the acceptor's next access is one that others may come before.
  predicate Exposed(max: int, s: State) {
    match s.pc
    case Scanning(i) => 0 <= i < TABLE_SIZE
    case Searching(_) => s.connindex < max
    case Accepting(f) => f.Some?
    case _ => false
  }

  // A descriptor the kernel can hand out is not open.
  predicate Fresh(s: State, answer: AcceptOutcome) {
    answer.Accepted? && answer.fd >= 0 && answer.fd !in s.open
  }

  // The acceptor's own access, where it is an exposed one.
  function Access(max: int, s: State, turn: Turn): (e: Event)
    requires Exposed(max, s)
    ensures Enabled(max, s, e)
  {
    match s.pc
    case Scanning(_) => Visit(turn.expired)
    case Searching(_) => Probe
    case Accepting(_) =>
      if Fresh(s, turn.answer) then AcceptOk(turn.answer.fd)
      else if turn.answer.Failed? then AcceptFatal else AcceptRetry
  }

  // One move of the acceptor; a thread is started at once after its connection is accepted.
  // Past the slot table and once stopped there is none.
  function Move(max: int, g: Game, env: nat -> Turn): Game
    requires Config(max)
  {
    if Exposed(max, g.s) then
      var turn := env(g.clock);
      var h := Interfered(max, g.(clock := g.clock + 1), turn.before);
      var h' := Did(max, h, Access(max, h.s, turn));
      if h'.s.pc.Creating? then Did(max, h', if turn.answer.threadStarts then CreateOk else CreateFail) else h'
    else
      match g.s.pc
      case LoopHead => Did(max, g, Begin)
      case Scanning(i) => if i < 0 then Did(max, g, EndScan) else g
      case Searching(_) => Did(max, g, EndSearch)
      case Accepting(_) => Did(max, g, Skip)
      case _ => g
  }

  function Moves(max: int, g: Game, env: nat -> Turn, n: nat): Game
    requires Config(max)
  {
    if n == 0 then g else Move(max, Moves(max, g, env, n - 1), env)
  }

  // From g the world leads the acceptor to h.
  ghost predicate Leads(max: int, env: nat -> Turn, g: Game, h: Game)
    requires Config(max)
  {
    exists n: nat :: Moves(max, g, env, n) == h
  }

  lemma LeadsNowhere(max: int, env: nat -> Turn, g: Game)
    requires Config(max)
    ensures Leads(max, env, g, g)
  {
    assert Moves(max, g, env, 0) == g;
  }

  lemma LeadsFurther(max: int, env: nat -> Turn, g: Game, h: Game)
    requires Config(max) && Leads(max, env, g, h)
    ensures Leads(max, env, g, Move(max, h, env))
  {
    hide Move;
    var n: nat :| Moves(max, g, env, n) == h;
    assert Moves(max, g, env, n + 1) == Move(max, h, env);
  }

  lemma {:induction false} MovesConcat(max: int, env: nat -> Turn, g: Game, m: nat, n: nat)
    requires Config(max)
    ensures Moves(max, Moves(max, g, env, m), env, n) == Moves(max, g, env, m + n)
  {
    hide Move;
    if n > 0 { MovesConcat(max, env, g, m, n - 1); }
  }

  lemma LeadsOn(max: int, env: nat -> Turn, a: Game, b: Game, c: Game)
    requires Config(max) && Leads(max, env, a, b) && Leads(max, env, b, c)
    ensures Leads(max, env, a, c)
  {
    hide Moves;
    var m: nat :| Moves(max, a, env, m) == b;
    var n: nat :| Moves(max, b, env, n) == c;
    MovesConcat(max, env, a, m, n);
  }

  // Workers' steps that can all happen as they are asked for do all happen.
  lemma {:induction false} InterferenceHappens(max: int, g: Game, es: seq<Event>)
    requires Config(max) && IsRun(max, g.s, es)
    requires forall i :: 0 <= i < |es| ==> es[i].WorkerClose? || es[i].WorkerFinish?
    ensures Interfered(max, g, es) == Game(Exec(max, g.s, es), g.clock, g.trace + es)
    decreases |es|
  {
    if es == [] {
      assert g.trace + [] == g.trace;
    } else {
      var init, e := es[..|es| - 1], es[|es| - 1];
      assert es == init + [e];
      RunSplit(max, g.s, init, [e]);
      InterferenceHappens(max, g, init);
      assert g.trace + es == g.trace + init + [e];
    }
  }

  // ---------- Moves are runs ----------

  lemma {:induction false} RunConcat(max: int, s: State, a: seq<Event>, b: seq<Event>)
    requires Config(max) && IsRun(max, s, a) && IsRun(max, Exec(max, s, a), b)
    ensures IsRun(max, s, a + b) && Exec(max, s, a + b) == Exec(max, Exec(max, s, a), b)
    decreases |a|
  {
    if a == [] {
      assert a + b == b;
    } else {
      assert (a + b)[1..] == a[1..] + b;
      RunConcat(max, Apply(max, s, a[0]), a[1..], b);
    }
  }

  lemma {:induction false} RunSplit(max: int, s: State, a: seq<Event>, b: seq<Event>)
    requires Config(max) && IsRun(max, s, a + b)
    ensures IsRun(max, s, a) && IsRun(max, Exec(max, s, a), b)
    ensures Exec(max, s, a + b) == Exec(max, Exec(max, s, a), b)
    decreases |a|
  {
    if a == [] {
      assert a + b == b;
    } else {
      assert (a + b)[1..] == a[1..] + b;
      RunSplit(max, Apply(max, s, a[0]), a[1..], b);
    }
  }

  // The events so far are a run from the start to where the server stands.
  ghost predicate Sound(max: int, g: Game)
    requires Config(max)
  {
    IsRun(max, Init(), g.trace) && Exec(max, Init(), g.trace) == g.s
  }

  lemma SoundInv(max: int, g: Game)
    requires Config(max) && Sound(max, g)
    ensures Inv(max, g.s)
  {
    InitInv(max);
    RunInv(max, Init(), g.trace);
  }

  lemma SoundDid(max: int, g: Game, e: Event)
    requires Config(max) && Sound(max, g) && Enabled(max, g.s, e)
    ensures Sound(max, Did(max, g, e))
  {
    hide Apply, Init;
    assert IsRun(max, Apply(max, g.s, e), [e][1..]);
    RunConcat(max, Init(), g.trace, [e]);
  }

  lemma {:induction false} SoundInterfered(max: int, g: Game, es: seq<Event>)
    requires Config(max) && Sound(max, g)
    ensures Sound(max, Interfered(max, g, es))
    decreases |es|
  {
    hide Sound, Did;
    if es != [] {
      var h, e := Interfered(max, g, es[..|es| - 1]), es[|es| - 1];
      SoundInterfered(max, g, es[..|es| - 1]);
      if WorkerCan(max, h.s, e) { SoundDid(max, h, e); }
    }
  }

  lemma SoundMove(max: int, g: Game, env: nat -> Turn)
    requires Config(max) && Sound(max, g)
    ensures Sound(max, Move(max, g, env))
  {
    hide Interfered, IsRun, Exec;
    if Exposed(max, g.s) {
      var turn := env(g.clock);
      var h := Interfered(max, g.(clock := g.clock + 1), turn.before);
      SoundInterfered(max, g.(clock := g.clock + 1), turn.before);
      SoundDid(max, h, Access(max, h.s, turn));
      var h' := Did(max, h, Access(max, h.s, turn));
      if h'.s.pc.Creating? {
        SoundDid(max, h', if turn.answer.threadStarts then CreateOk else CreateFail);
      }
    } else if Move(max, g, env) != g {
      SoundDid(max, g, if g.s.pc.LoopHead? then Begin else if g.s.pc.Scanning? then EndScan
                       else if g.s.pc.Searching? then EndSearch else Skip);
    }
  }

  // ---------- A scan in which time is up ----------

  // Workers' steps leave an available slot available.
  lemma {:induction false} AvailableStays(max: int, g: Game, es: seq<Event>, j: SlotIndex)
    requires Config(max) && Sound(max, g) && g.s.slots[j].status.Available?
    ensures Interfered(max, g, es).s.slots[j].status.Available?
    decreases |es|
  {
    hide Sound;
    if es != [] {
      var h, e := Interfered(max, g, es[..|es| - 1]), es[|es| - 1];
      AvailableStays(max, g, es[..|es| - 1], j);
      SoundInterfered(max, g, es[..|es| - 1]);
      SoundInv(max, h);
      if WorkerCan(max, h.s, e) { assert WorkerInv(h.s, e.w); }
    }
  }

  // A slot is available after the scan has looked at it when its time was up, whatever it
  // was; one that was available stays so; and one still in use is left alone before.
  lemma ScanMove(max: int, g: Game, env: nat -> Turn, k: SlotIndex)
    requires Config(max) && Sound(max, g) && g.s.pc == Scanning(k)
    ensures var h := Move(max, g, env);
            var met := Interfered(max, g.(clock := g.clock + 1), env(g.clock).before).s.slots[k];
            && (env(g.clock).expired ==> h.s.slots[k].status.Available?)
            && (!met.status.Active? ==> h.s.slots[k].status.Available?)
            && (!env(g.clock).expired && met.status.Active? ==> h.s.slots[k] == met)
            && forall j: SlotIndex :: g.s.slots[j].status.Available? ==> h.s.slots[j].status.Available?
  {
    hide Sound, Interfered;
    var g' := g.(clock := g.clock + 1);
    SoundAtClock(max, g, g.clock + 1);
    forall j: SlotIndex | g.s.slots[j].status.Available?
      ensures Interfered(max, g', env(g.clock).before).s.slots[j].status.Available?
    {
      AvailableStays(max, g', env(g.clock).before, j);
    }
  }

  // ---------- Counting turns of the loop ----------

  ghost function Begins(trace: seq<Event>): nat {
    if trace == [] then 0
    else Begins(trace[..|trace| - 1]) + if trace[|trace| - 1] == Begin then 1 else 0
  }

  lemma BeginsSnoc(trace: seq<Event>, e: Event)
    ensures Begins(trace + [e]) == Begins(trace) + if e == Begin then 1 else 0
  {
    assert (trace + [e])[..|trace|] == trace;
  }

  lemma {:induction false} InterferedBegins(max: int, g: Game, es: seq<Event>)
    requires Config(max)
    ensures Begins(Interfered(max, g, es).trace) == Begins(g.trace)
    decreases |es|
  {
    hide Begins, Apply;
    if es != [] {
      var h, e := Interfered(max, g, es[..|es| - 1]), es[|es| - 1];
      InterferedBegins(max, g, es[..|es| - 1]);
      BeginsSnoc(h.trace, e);
    }
  }

  lemma MoveBegins(max: int, g: Game, env: nat -> Turn)
    requires Config(max)
    ensures Begins(Move(max, g, env).trace) == Begins(g.trace) + if g.s.pc == LoopHead then 1 else 0
  {
    hide Begins, Interfered, Apply;
    if Exposed(max, g.s) {
      var turn := env(g.clock);
      var h := Interfered(max, g.(clock := g.clock + 1), turn.before);
      InterferedBegins(max, g.(clock := g.clock + 1), turn.before);
      var e := Access(max, h.s, turn);
      BeginsSnoc(h.trace, e);
      BeginsSnoc(h.trace + [e], CreateOk);
      BeginsSnoc(h.trace + [e], CreateFail);
    } else {
      BeginsSnoc(g.trace, Begin);
      BeginsSnoc(g.trace, EndScan);
      BeginsSnoc(g.trace, EndSearch);
      BeginsSnoc(g.trace, Skip);
    }
  }

  // ---------- The server ----------

  class Server {
    const max: nat
    const fds: array<Slot>
    var conncount: int
    var connindex: nat
    var workers: seq<Worker>
    var open: set<int>
    var leaked: set<int>
    var timeouts: nat
    var joins: seq<nat>
    var clock: nat   // how many turns of the world have been used

    ghost predicate Valid()
      reads this
    {
      fds.Length == TABLE_SIZE && Config(max)
    }

    // The abstract state, given where the acceptor stands.
    ghost function At(pc: Pc): State
      requires Valid()
      reads this, fds
    {
      State(fds[..], conncount, connindex, pc, workers, open, leaked, timeouts, joins)
    }

    // The server stands where the game does, and the game is a run.
    ghost predicate Plays(g: Game)
      requires Valid()
      reads this, fds
    {
      At(g.s.pc) == g.s && clock == g.clock && Sound(max, g)
    }

    constructor (max: nat)
      requires Config(max)
      ensures Valid() && fresh(fds) && At(LoopHead) == Init() && clock == 0 && this.max == max
    {
      this.max := max;
      fds := new Slot[TABLE_SIZE](_ => Slot(Available, 0, 0));
      conncount, connindex, timeouts, clock := 0, 0, 0, 0;
      workers, joins, open, leaked := [], [], {}, {};
    }

    // A worker thread closes its descriptor, or marks its slot inactive and exits.
    method WorkerStep(e: Event, ghost pc: Pc)
      requires Valid() && (e.WorkerClose? || e.WorkerFinish?) && Enabled(max, At(pc), e)
      modifies this, fds
      ensures Valid() && At(pc) == Apply(max, old(At(pc)), e)
      ensures clock == old(clock) && connindex == old(connindex)
    {
      var slot := workers[e.w].slot;
      if e.WorkerClose? {
        open := open - {fds[slot].fd};
        workers := SetPhase(workers, e.w, Closed(fds[slot].fd));
      } else {
        fds[slot] := fds[slot].(status := Inactive);
        workers := SetPhase(workers, e.w, Finished(workers[e.w].phase.fd));
      }
    }

    // The worker steps of the next turn of the world that can happen, in order.
    method Interfere(env: nat -> Turn, ghost g: Game) returns (turn: Turn, ghost h: Game)
      requires Valid() && Plays(g)
      modifies this, fds
      ensures Valid() && Plays(h) && turn == env(old(clock))
      ensures h == Interfered(max, g.(clock := g.clock + 1), turn.before)
    {
      hide Apply, Sound;
      turn := env(clock);
      clock := clock + 1;
      ghost var g' := g.(clock := g.clock + 1);
      h := g';
      for k := 0 to |turn.before|
        invariant Valid() && At(h.s.pc) == h.s && clock == h.clock
        invariant h == Interfered(max, g', turn.before[..k])
      {
        var e := turn.before[k];
        assert turn.before[..k + 1][..k] == turn.before[..k];
        if (e.WorkerClose? && e.w < |workers| && workers[e.w].phase.Serving?)
           || (e.WorkerFinish? && e.w < |workers| && workers[e.w].phase.Closed?)
        {
          WorkerStep(e, h.s.pc);
          h := Did(max, h, e);
        }
      }
      assert turn.before[..|turn.before|] == turn.before;
      SoundAtClock(max, g, g.clock + 1);
      SoundInterfered(max, g', turn.before);
    }

    // One slot of the scan, with nothing interfering.
    method VisitOne(i: nat, expired: bool)
      requires Valid() && i < TABLE_SIZE && Inv(max, At(Scanning(i)))
      modifies this, fds
      ensures Valid() && clock == old(clock)
      ensures At(Scanning(i - 1)) == Apply(max, old(At(Scanning(i))), Visit(expired))
    {
      assert SlotInv(At(Scanning(i)), i);
      if fds[i].status == Available {
        connindex := i;
      } else if fds[i].status == Inactive {
        conncount := conncount - 1;
        connindex := i;
        fds[i] := fds[i].(status := Available);
        workers := SetPhase(workers, fds[i].thread, Joined(workers[fds[i].thread].phase.fd));
        joins := joins + [fds[i].thread];
      } else if expired {
        open := open - {fds[i].fd};
        workers := SetPhase(workers, fds[i].thread, Cancelled);
        fds[i] := fds[i].(status := Available);
        timeouts := timeouts + 1;
      }
    }

    // One slot of the scan, with what the workers do before it.
    method ScanOne(i: SlotIndex, env: nat -> Turn, ghost g: Game) returns (ghost h: Game)
      requires Valid() && Plays(g) && g.s.pc == Scanning(i)
      modifies this, fds
      ensures Valid() && Plays(h) && h == Move(max, g, env) && h.s.pc == Scanning(i - 1)
      ensures h.s.open <= g.s.open && |h.s.workers| == |g.s.workers|
      ensures env(old(clock)).expired ==> fds[i].status == Available
      ensures forall j: SlotIndex :: g.s.slots[j].status.Available? ==> h.s.slots[j].status.Available?
    {
      hide Sound, Interfered;
      ScanMove(max, g, env, i);
      SoundMove(max, g, env);
      var turn;
      turn, h := Interfere(env, g);
      SoundInv(max, h);
      VisitOne(i, turn.expired);
      h := Did(max, h, Visit(turn.expired));
    }

    // The scan of a full pool, from the slot one past it down to slot 0.  If every thread's
    // time is up it leaves no slot in use.
    method ScanPool(env: nat -> Turn, ghost g: Game) returns (ghost h: Game)
      requires Valid() && Plays(g) && g.s.pc == LoopHead && max <= conncount < TABLE_SIZE
      modifies this, fds
      ensures Valid() && Plays(h) && Leads(max, env, g, h) && h.s.pc == Searching(None)
      ensures Begins(h.trace) == Begins(g.trace) + 1 && h.s.open <= g.s.open && |h.s.workers| == |g.s.workers|
      ensures (forall c: nat :: env(c).expired) ==> forall j :: 0 <= j < max ==> fds[j].status == Available
    {
      hide Sound, Moves, Interfered, Begins;
      var i: int := conncount;
      h := Move(max, g, env);
      LeadsNowhere(max, env, g);
      LeadsFurther(max, env, g, g);
      SoundMove(max, g, env);
      MoveBegins(max, g, env);
      while i > -1
        invariant -1 <= i < TABLE_SIZE && Valid() && Plays(h) && h.s.pc == Scanning(i)
        invariant Leads(max, env, g, h) && Begins(h.trace) == Begins(g.trace) + 1
        invariant h.s.open <= g.s.open && |h.s.workers| == |g.s.workers|
        invariant (forall c: nat :: env(c).expired) ==>
                    forall j: SlotIndex :: i < j <= g.s.conncount ==> h.s.slots[j].status.Available?
        decreases i
      {
        LeadsFurther(max, env, g, h);
        MoveBegins(max, h, env);
        h := ScanOne(i, env, h);
        i := i - 1;
      }
      LeadsFurther(max, env, g, h);
      SoundMove(max, h, env);
      MoveBegins(max, h, env);
      h := Move(max, h, env);
    }

    // Moves the search index forward to an available slot.  f is the slot the acceptor
    // will use; it stays set even when the search runs off the end.
    method FindSlot(env: nat -> Turn, ghost g: Game) returns (f: Option<SlotIndex>, ghost h: Game)
      requires Valid() && Plays(g) && g.s.pc == Searching(None)
      modifies this, fds
      ensures Valid() && Plays(h) && Leads(max, env, g, h) && h.s.pc == Accepting(f)
      ensures f.Some? ==> fds[f.value].status == Available
      ensures Begins(h.trace) == Begins(g.trace) && h.s.open <= g.s.open && h.clock >= g.clock
      ensures |h.s.workers| == |g.s.workers| && h.s.conncount == g.s.conncount
    {
      hide Sound, Moves, Interfered, Begins;
      f, h := None, g;
      LeadsNowhere(max, env, g);
      while connindex < max
        invariant Valid() && Plays(h) && h.s.pc == Searching(f)
        invariant Leads(max, env, g, h) && Begins(h.trace) == Begins(g.trace) && h.clock >= g.clock
        invariant h.s.open <= g.s.open && |h.s.workers| == |g.s.workers| && h.s.conncount == g.s.conncount
        decreases max - connindex
      {
        ghost var at := h;
        var turn;
        turn, h := Interfere(env, h);
        LeadsFurther(max, env, g, at);
        SoundMove(max, at, env);
        MoveBegins(max, at, env);
        h := Did(max, h, Probe);
        f := Some(connindex);
        if fds[connindex].status == Available {
          return;
        }
        connindex := connindex + 1;
      }
      SoundInv(max, h);
      LeadsFurther(max, env, g, h);
      SoundMove(max, h, env);
      MoveBegins(max, h, env);
      h := Move(max, h, env);
    }

    // Accepts into the chosen slot and starts its thread.  A descriptor that is handed out is
    // served by a new worker in that slot, or leaked if the thread does not start; nothing
    // else is.
    method AcceptInto(i: SlotIndex, env: nat -> Turn, ghost g: Game) returns (running: bool, ghost h: Game)
      requires Valid() && Plays(g) && g.s.pc == Accepting(Some(i))
      modifies this, fds
      ensures Valid() && Plays(h) && h == Move(max, g, env) && h.s.pc == if running then LoopHead else Stopped
      ensures clock == old(clock) + 1 && running == !env(old(clock)).answer.Failed?
      ensures var answer := env(old(clock)).answer;
              if answer.Accepted? && answer.fd >= 0 && answer.fd !in old(open) then
                && answer.fd in open && fds[i].fd == answer.fd
                && if answer.threadStarts
                   then Gained(workers, |old(workers)|, i, answer.fd)
                        && fds[i] == Slot(Active, answer.fd, |old(workers)|)
                        && conncount == old(conncount) + 1
                   else |workers| == |old(workers)| && fds[i].status == Available
                        && conncount == old(conncount) && answer.fd in leaked
              else answer.Accepted? ||
                   (|workers| == |old(workers)| && conncount == old(conncount) && leaked == old(leaked)
                    && open <= old(open) && fds[i].status == Available)
      ensures open <= old(open) + if env(old(clock)).answer.Accepted? then {env(old(clock)).answer.fd} else {}
    {
      hide Sound, Interfered;
      var turn;
      turn, h := Interfere(env, g);
      SoundMove(max, g, env);
      SoundInv(max, h);
      var answer := turn.answer;
      running := !answer.Failed?;
      // The kernel hands out no descriptor that is still open.
      if answer.Accepted? && answer.fd >= 0 && answer.fd !in open {
        fds[i] := Slot(Active, answer.fd, fds[i].thread);
        conncount := conncount + 1;
        open := open + {answer.fd};
        h := Did(max, h, AcceptOk(answer.fd));
        StartThread(i, answer.threadStarts);
        h := Did(max, h, if answer.threadStarts then CreateOk else CreateFail);
      } else {
        fds[i] := fds[i].(fd := -1);
        h := Did(max, h, if running then AcceptRetry else AcceptFatal);
      }
    }

    method StartThread(i: SlotIndex, starts: bool)
      requires Valid()
      modifies this, fds
      ensures Valid() && clock == old(clock)
      ensures At(LoopHead) == Apply(max, old(At(Creating(i))), if starts then CreateOk else CreateFail)
      ensures if starts
              then workers == old(workers) + [Worker(i, old(fds[i].fd), Serving)]
              else workers == old(workers) && fds[i].status == Available && old(fds[i].fd) in leaked
    {
      if starts {
        workers := workers + [Worker(i, fds[i].fd, Serving)];
        fds[i] := fds[i].(thread := |workers| - 1);
      } else {
        fds[i] := fds[i].(status := Available);
        conncount := conncount - 1;
        leaked := leaked + {fds[i].fd};
      }
    }

    // One turn of the endless loop.  While the pool is not full, a descriptor that accept()
    // hands out and a thread that starts give exactly one more worker, serving it.
    method Iterate(env: nat -> Turn, ghost g: Game) returns (running: bool, ghost h: Game)
      requires Valid() && Plays(g) && g.s.pc == LoopHead && conncount < TABLE_SIZE
      modifies this, fds
      ensures Valid() && Plays(h) && Leads(max, env, g, h) && h.s.pc == if running then LoopHead else Stopped
      ensures Begins(h.trace) == Begins(g.trace) + 1
      ensures old(conncount) < max ==>
                && clock > old(clock)
                && running == !env(clock - 1).answer.Failed?
                && open <= old(open) + (if env(clock - 1).answer.Accepted? then {env(clock - 1).answer.fd} else {})
                && var answer := env(clock - 1).answer;
                   answer.Accepted? && answer.fd >= 0 && answer.fd !in old(open) && answer.threadStarts ==>
                     && conncount == old(conncount) + 1 && answer.fd in open
                     && exists i :: 0 <= i < max && Gained(workers, |old(workers)|, i, answer.fd)
    {
      hide Sound, Moves, Begins, Interfered;
      ghost var searching;
      if conncount >= max {
        searching := ScanPool(env, g);
      } else {
        LeadsNowhere(max, env, g);
        LeadsFurther(max, env, g, g);
        SoundMove(max, g, env);
        MoveBegins(max, g, env);
        searching := Move(max, g, env);
      }
      var f, accepting := FindSlot(env, searching);
      LeadsOn(max, env, g, searching, accepting);
      LeadsFurther(max, env, g, accepting);
      MoveBegins(max, accepting, env);
      SoundInv(max, accepting);
      if f.Some? {
        running, h := AcceptInto(f.value, env, accepting);
      } else {
        SoundMove(max, accepting, env);
        running, h := true, Move(max, accepting, env);
      }
    }
  }

  // The workers there were, and one more at the end, serving in this slot.
  ghost predicate Gained(workers: seq<Worker>, n: nat, i: int, fd: int) {
    0 <= i < TABLE_SIZE && |workers| == n + 1 && workers[n] == Worker(i, fd, Serving)
  }

  lemma SoundAtClock(max: int, g: Game, clock: nat)
    requires Config(max) && Sound(max, g)
    ensures Sound(max, g.(clock := clock))
  {
  }

  // Every accept() hands out a new descriptor and every thread starts.
  ghost predicate Generous(env: nat -> Turn) {
    forall c: nat :: env(c).answer == Accepted(c, true)
  }

  // The server from its start, for any number of turns of the loop: it makes the moves the
  // world leads it to, all those turns unless it stops or the counter reaches 256, where the
  // scan would leave the slot table.  In a world that refuses nothing, each turn gains a worker
  // until the pool is full.
  method Serve(max: nat, turns: nat, env: nat -> Turn) returns (server: Server, ghost h: Game)
    requires Config(max)
    ensures server.Valid() && server.max == max && server.Plays(h)
    ensures Leads(max, env, Game(Init(), 0, []), h) && IsRun(max, Init(), h.trace)
    ensures Begins(h.trace) == turns || h.s.pc == Stopped || server.conncount >= TABLE_SIZE
    ensures Generous(env) && turns <= max ==> |server.workers| == turns && h.s.pc == LoopHead
  {
    hide Moves, Begins, Interfered;
    server := new Server(max);
    ghost var g := Game(Init(), 0, []);
    h := g;
    LeadsNowhere(max, env, g);
    assert Begins([]) == 0 by { NoBegins(); }
    var running, n := true, 0;
    while n < turns && running && server.conncount < TABLE_SIZE
      invariant server.Valid() && server.max == max && fresh(server) && fresh(server.fds)
      invariant server.Plays(h) && Leads(max, env, g, h) && h.s.pc == if running then LoopHead else Stopped
      invariant n == Begins(h.trace) <= turns
      invariant Generous(env) && turns <= max ==>
                  && running && server.conncount == n == |server.workers|
                  && forall fd <- server.open :: fd < server.clock
    {
      ghost var at := h;
      running, h := server.Iterate(env, h);
      LeadsOn(max, env, g, at, h);
      n := n + 1;
    }
  }

  lemma NoBegins()
    ensures Begins([]) == 0
  {
  }
}
