/** lua_merge of src/lua.c: every table on the stack becomes one, unless the copies it makes of
    the keys lose its place. */
module TableMerge {
  import opened CStrings
  import opened LuaValues

  // The entries of es assigned to acc in order.
  function AddAll(acc: seq<Entry>, es: seq<Entry>): seq<Entry> {
    if es == [] then acc
    else SetEntry(AddAll(acc, es[..|es| - 1]), es[|es| - 1].key, es[|es| - 1].val)
  }

  // Tables from the stack bottom up, the topmost assigned first.
  function MergeOf(ts: seq<Value>): seq<Entry>
    requires AllTables(ts)
  {
    if ts == [] then [] else AddAll(MergeOf(ts[1..]), ts[0].entries)
  }

  predicate AllTables(ts: seq<Value>) {
    forall i :: 0 <= i < |ts| ==> ts[i].Table? && ts[i].entries != [] && WellFormed(ts[i].entries)
  }

  // ---------- The loop as a machine ----------

  // The copy of a key that lua_next is given: a number becomes a float, a text ends at its
  // first NUL.
  function Copy(k: Value): Value
    requires ValidKey(k)
  {
    match k
    case Int(n) => Flt(n as real)
    case Flt(x) => Flt(x)
    case Text(s) => Text(CString(s))
  }

  // Where the loop stands: before a table, the n bottom ones still to come; at entry i of
  // table t; returned 0 at a key of another type; or ended by a Lua error.
  datatype Progress = Before(n: nat, merged: seq<Entry>) | Within(t: nat, i: nat, merged: seq<Entry>) | Rejected | Raised

  predicate OnTrack(ts: seq<Value>, p: Progress)
    requires AllTables(ts)
  {
    match p
    case Before(n, _) => n <= |ts|
    case Within(t, i, _) => t < |ts| && i < |ts[t].entries|
    case _ => true
  }

  predicate Over(p: Progress) { p.Rejected? || p.Raised? || (p.Before? && p.n == 0) }

  // One turn of the loop.
  function Turn(ts: seq<Value>, p: Progress): (p': Progress)
    requires AllTables(ts) && OnTrack(ts, p)
    ensures OnTrack(ts, p')
  {
    match p
    case Before(n, merged) => if n == 0 then p else Within(n - 1, 0, merged)
    case Within(t, i, merged) =>
      var es := ts[t].entries;
      if !ValidKey(es[i].key) then Rejected
      else
        var merged' := SetEntry(merged, es[i].key, es[i].val);
        var j := Find(es, Copy(es[i].key)) + 1;
        if j < |es| then Within(t, j, merged') else if j == |es| then Before(t, merged') else Raised
    case _ => p
  }

  function Turns(ts: seq<Value>, n: nat): (p: Progress)
    requires AllTables(ts)
    ensures OnTrack(ts, p)
  {
    if n == 0 then Before(|ts|, []) else Turn(ts, Turns(ts, n - 1))
  }

  // The stack while entry i of the topmost table left is being moved.
  function Moving(merged: seq<Entry>, ts: seq<Value>, es: seq<Entry>, i: nat): seq<Value> {
    Visiting([Table(merged)] + ts, es, i)
  }

  // The stack where the loop stands.
  predicate Shows(ts: seq<Value>, p: Progress, stack: seq<Value>)
    requires AllTables(ts) && OnTrack(ts, p)
  {
    match p
    case Before(n, merged) => stack == [Table(merged)] + ts[..n]
    case Within(t, i, merged) => stack == Moving(merged, ts[..t + 1], ts[t].entries, i)
    case _ => true
  }

  datatype Ending = Returned(ok: bool) | LuaError | StillRunning

  function EndingOf(p: Progress): Ending {
    if p.Rejected? then Returned(false) else if p.Raised? then LuaError
    else if Over(p) then Returned(true) else StillRunning
  }

  // The loop over all values of the stack, which are non-empty tables, for as many turns as
  // are given to it: it need not end.
  method LuaMerge(L: LuaState, turns: nat) returns (end: Ending)
    requires |L.stack| >= 2 ==> AllTables(L.stack)
    modifies L
    ensures |old(L.stack)| < 2 ==> end == Returned(true) && L.stack == old(L.stack)
    ensures |old(L.stack)| >= 2 ==>
              var p := Turns(old(L.stack), turns);
              end == EndingOf(p) && Shows(old(L.stack), p, L.stack)
  {
    hide WellFormed, SetEntry, Shows, Turn, Copy;
    var top := |L.stack|;
    if top < 2 {
      return Returned(true);
    }
    ghost var ts, p := L.stack, Before(|L.stack|, []);
    L.Push(Table([]));
    L.Insert(1);
    ShowsStart(ts, L.stack);
    var depth, index, tpull, used := 0, top + 1, 0, 0;
    while index > 1 && used < turns
      invariant 1 <= index <= top + 1 && depth in {0, 1} && used <= turns
      invariant p == Turns(ts, used) && Shows(ts, p, L.stack)
      invariant if depth == 0 then p.Before? && p.n == index - 1 else p.Within? && p.t == index - 2 && tpull == index
      decreases turns - used
    {
      used := used + 1;
      if depth == 0 {
        ShowsTable(ts, p, L.stack);
        var more := FirstEntry(L, index);
        tpull, depth := index, 1;
      } else {
        var turn := MoveOrEnd(L, tpull, ts, p);
        if turn.Finish? {
          OverForever(ts, used, turns);
          return turn.end;
        }
        if turn.Leave? {
          depth := 0;
        }
      }
      if depth == 0 {
        index := index - 1;
      }
      p := Turn(ts, p);
    }
    if index == 1 {
      OverForever(ts, used, turns);
    }
    return if index == 1 then Returned(true) else StillRunning;
  }

  // What a turn at an entry leads to: the table goes on, it is done with, or the merge is over.
  datatype EntryTurn = Stay | Leave | Finish(end: Ending)

  // The part of the loop for an entry of a table.
  method MoveOrEnd(L: LuaState, tpull: nat, ghost ts: seq<Value>, ghost p: Progress) returns (turn: EntryTurn)
    requires AllTables(ts) && OnTrack(ts, p) && p.Within? && tpull == p.t + 2 && Shows(ts, p, L.stack)
    modifies L
    ensures Shows(ts, Turn(ts, p), L.stack)
    ensures match turn
            case Stay => Turn(ts, p).Within? && Turn(ts, p).t == p.t
            case Leave => Turn(ts, p).Before? && Turn(ts, p).n == p.t
            case Finish(end) => Over(Turn(ts, p)) && end == EndingOf(Turn(ts, p))
  {
    hide WellFormed, SetEntry, Shows, Turn, Copy, Moving;
    ShowsEntry(ts, p, L.stack);
    var k := L.stack[|L.stack| - 2];
    if !IsNumber(k) && !k.Text? {
      return Finish(Returned(false));
    }
    var r := MoveEntry(L, tpull, p.merged, ts[..p.t + 1], p.i);
    ShowsNext(ts, p, r, L.stack);
    if r.InvalidKey? {
      return Finish(LuaError);
    }
    if r.End? {
      L.Pop(1);
    }
    return if r.End? then Leave else Stay;
  }

  // Moves the entry on top of the stack to the merged table at position 1 and asks for the
  // entry after its copied key.
  method MoveEntry(L: LuaState, tpull: nat, ghost merged: seq<Entry>, ghost ts: seq<Value>, ghost i: nat)
    returns (r: Advance)
    requires tpull == |ts| + 1 > 1 && ts[|ts| - 1].Table? && i < |ts[|ts| - 1].entries|
    requires var k := ts[|ts| - 1].entries[i].key; ValidKey(k) && AsKey(k) == k
    requires L.stack == Moving(merged, ts, ts[|ts| - 1].entries, i)
    modifies L
    ensures var es := ts[|ts| - 1].entries;
            && r == After(es, Copy(es[i].key))
            && (!r.InvalidKey? ==>
                  L.stack == [Table(SetEntry(merged, es[i].key, es[i].val))] + ts
                             + if r.More? then [r.entry.key, r.entry.val] else [])
  {
    hide SetEntry, AsKey;
    ghost var es := ts[|ts| - 1].entries;
    ghost var e, copy := es[i], Copy(es[i].key);
    var k := L.stack[|L.stack| - 2];
    L.Push(if k.Int? then Flt(k.n as real) else if k.Flt? then k else Text(CString(k.s)));
    L.Insert(tpull + 1);
    assert L.stack == [Table(merged)] + ts + [copy, e.key, e.val];
    L.SetTable(1);
    assert L.stack == [Table(SetEntry(merged, e.key, e.val))] + ts + [copy];
    assert L.stack[tpull - 1] == ts[|ts| - 1];
    r := L.Next(tpull);
  }

  // ---------- The stack from turn to turn ----------

  lemma ShowsStart(ts: seq<Value>, stack: seq<Value>)
    requires AllTables(ts) && stack == [Table([])] + ts
    ensures Shows(ts, Before(|ts|, []), stack)
  {
    assert ts[..|ts|] == ts;
  }

  lemma ShowsTable(ts: seq<Value>, p: Progress, stack: seq<Value>)
    requires AllTables(ts) && OnTrack(ts, p) && p.Before? && p.n > 0 && Shows(ts, p, stack)
    ensures |stack| == p.n + 1 && stack[p.n] == ts[p.n - 1]
    ensures Turn(ts, p) == Within(p.n - 1, 0, p.merged)
    ensures Shows(ts, Turn(ts, p), Visiting(stack, ts[p.n - 1].entries, 0))
  {
  }

  lemma ShowsEntry(ts: seq<Value>, p: Progress, stack: seq<Value>)
    requires AllTables(ts) && OnTrack(ts, p) && p.Within? && Shows(ts, p, stack)
    ensures var es := ts[p.t].entries;
            && stack == Moving(p.merged, ts[..p.t + 1], es, p.i) && AsKey(es[p.i].key) == es[p.i].key
            && |stack| == p.t + 4 && stack[p.t + 2] == es[p.i].key
            && (!ValidKey(es[p.i].key) ==> Turn(ts, p) == Rejected && Shows(ts, Rejected, stack))
  {
    assert WellFormedEntry(ts[p.t].entries[p.i]);
  }

  lemma ShowsNext(ts: seq<Value>, p: Progress, r: Advance, stack: seq<Value>)
    requires AllTables(ts) && OnTrack(ts, p) && p.Within? && ValidKey(ts[p.t].entries[p.i].key)
    requires var es := ts[p.t].entries;
             && r == After(es, Copy(es[p.i].key))
             && (!r.InvalidKey? ==>
                   stack == [Table(SetEntry(p.merged, es[p.i].key, es[p.i].val))] + ts[..p.t + 1]
                            + if r.More? then [r.entry.key, r.entry.val] else [])
    ensures match r
            case InvalidKey => Turn(ts, p) == Raised && Shows(ts, Raised, stack)
            case End =>
              && Turn(ts, p).Before? && Turn(ts, p).n == p.t
              && |stack| > 0 && Shows(ts, Turn(ts, p), stack[..|stack| - 1])
            case More(_) => Turn(ts, p).Within? && Turn(ts, p).t == p.t && Shows(ts, Turn(ts, p), stack)
  {
    hide SetEntry, WellFormed, CString;
    if r.End? {
      assert stack[..|stack| - 1] == [stack[0]] + ts[..p.t];
    }
  }

  // A loop that is over stays over.
  lemma {:induction false} OverForever(ts: seq<Value>, n: nat, m: nat)
    requires AllTables(ts) && n <= m && Over(Turns(ts, n))
    ensures Turns(ts, m) == Turns(ts, n)
    decreases m
  {
    if n < m { OverForever(ts, n, m - 1); }
  }

  // ---------- Keys that survive their copy ----------

  predicate Survives(k: Value) { ValidKey(k) && Copy(k) == k }

  // They are the texts without NUL and the floats without an integer value: no integer.
  lemma SurvivesExactly(k: Value)
    requires AsKey(k) == k
    ensures Survives(k) <==> (k.Text? && '\0' !in k.s) || (k.Flt? && !Integral(k.x))
  {
  }

  // The copy of an integer key is in no table.
  lemma IntegerKeyIsLost(es: seq<Entry>, n: Integer)
    requires WellFormed(es)
    ensures Find(es, Copy(Int(n))) == |es|
  {
    assert (n as real).Floor == n;
    assert AsKey(Flt(n as real)) == Int(n);
    forall j | 0 <= j < |es| ensures es[j].key != Flt(n as real) {
      assert WellFormedEntry(es[j]);
    }
  }

  predicate AllSurvive(es: seq<Entry>) {
    forall j :: 0 <= j < |es| ==> Survives(es[j].key)
  }

  // Every key of the tables from n up.
  predicate SurviveFrom(ts: seq<Value>, n: nat)
    requires AllTables(ts)
  {
    forall i :: n <= i < |ts| ==> AllSurvive(ts[i].entries)
  }

  // The turns a loop needs that loses no key, from the top down to table n.
  function TurnsTo(ts: seq<Value>, n: nat): nat
    requires AllTables(ts) && n <= |ts|
    decreases |ts| - n
  {
    if n == |ts| then 0 else TurnsTo(ts, n + 1) + 1 + |ts[n].entries|
  }

  lemma AddOne(acc: seq<Entry>, es: seq<Entry>, i: nat)
    requires i < |es|
    ensures AddAll(acc, es[..i + 1]) == SetEntry(AddAll(acc, es[..i]), es[i].key, es[i].val)
  {
    assert es[..i + 1][..i] == es[..i];
  }

  // An entry whose key survives is moved and the next one follows.
  lemma TurnAtSurvivor(ts: seq<Value>, t: nat, i: nat, merged: seq<Entry>)
    requires AllTables(ts) && t < |ts| && i < |ts[t].entries| && Survives(ts[t].entries[i].key)
    ensures var es := ts[t].entries;
            var merged' := SetEntry(merged, es[i].key, es[i].val);
            Turn(ts, Within(t, i, merged)) ==
              if i + 1 < |es| then Within(t, i + 1, merged') else Before(t, merged')
  {
    hide SetEntry;
    FindAt(ts[t].entries, i);
  }

  // As long as keys survive, the loop visits every entry in order.
  lemma {:induction false} ReachesEntry(ts: seq<Value>, t: nat, i: nat)
    requires AllTables(ts) && t < |ts| && i < |ts[t].entries|
    requires SurviveFrom(ts, t + 1) && AllSurvive(ts[t].entries[..i])
    ensures Turns(ts, TurnsTo(ts, t + 1) + 1 + i) == Within(t, i, AddAll(MergeOf(ts[t + 1..]), ts[t].entries[..i]))
    decreases |ts| - t, i
  {
    hide SetEntry, WellFormed, Survives, Turn, AddAll, MergeOf;
    var es := ts[t].entries;
    if i == 0 {
      ReachesTable(ts, t + 1);
      FirstTurn(ts, t + 1, MergeOf(ts[t + 1..]));
      AddNone(MergeOf(ts[t + 1..]), es);
    } else {
      assert es[..i - 1] == es[..i][..i - 1] && es[i - 1] == es[..i][i - 1];
      ReachesEntry(ts, t, i - 1);
      TurnAtSurvivor(ts, t, i - 1, AddAll(MergeOf(ts[t + 1..]), es[..i - 1]));
      AddOne(MergeOf(ts[t + 1..]), es, i - 1);
    }
  }

  lemma {:induction false} ReachesTable(ts: seq<Value>, n: nat)
    requires AllTables(ts) && n <= |ts| && SurviveFrom(ts, n)
    ensures Turns(ts, TurnsTo(ts, n)) == Before(n, MergeOf(ts[n..]))
    decreases |ts| - n
  {
    hide SetEntry, WellFormed, Survives, Turn, AddAll, MergeOf;
    MergeFrom(ts, n);
    if n < |ts| {
      var es := ts[n].entries;
      var last := |es| - 1;
      ReachesEntry(ts, n, last);
      TurnAtSurvivor(ts, n, last, AddAll(MergeOf(ts[n + 1..]), es[..last]));
      AddOne(MergeOf(ts[n + 1..]), es, last);
      assert es[..last + 1] == es;
    }
  }

  lemma MergeFrom(ts: seq<Value>, n: nat)
    requires AllTables(ts) && n <= |ts|
    ensures MergeOf(ts[n..]) == if n == |ts| then [] else AddAll(MergeOf(ts[n + 1..]), ts[n].entries)
  {
    hide AddAll;
    if n < |ts| { assert ts[n..][1..] == ts[n + 1..]; }
  }

  lemma FirstTurn(ts: seq<Value>, n: nat, merged: seq<Entry>)
    requires AllTables(ts) && 0 < n <= |ts|
    ensures Turn(ts, Before(n, merged)) == Within(n - 1, 0, merged)
  {
  }

  lemma AddNone(acc: seq<Entry>, es: seq<Entry>)
    ensures AddAll(acc, es[..0]) == acc
  {
  }

  // ---------- How the merge ends ----------

  // If every key survives its copy, the loop ends with the merged table.
  lemma MergeReturnsTheUnion(ts: seq<Value>, turns: nat)
    requires AllTables(ts) && SurviveFrom(ts, 0) && turns >= TurnsTo(ts, 0)
    ensures Turns(ts, turns) == Before(0, MergeOf(ts))
  {
    ReachesTable(ts, 0);
    assert ts[0..] == ts;
    OverForever(ts, TurnsTo(ts, 0), turns);
  }

  // The first key, in the order of traversal, that does not survive: entry i of table t.
  predicate FirstLost(ts: seq<Value>, t: nat, i: nat)
    requires AllTables(ts)
  {
    && t < |ts| && i < |ts[t].entries| && SurviveFrom(ts, t + 1)
    && AllSurvive(ts[t].entries[..i]) && !Survives(ts[t].entries[i].key)
  }

  lemma TurnAtLostKey(ts: seq<Value>, t: nat, i: nat, merged: seq<Entry>)
    requires AllTables(ts) && t < |ts| && i < |ts[t].entries| && !Survives(ts[t].entries[i].key)
    ensures var es := ts[t].entries;
            var p := Turn(ts, Within(t, i, merged));
            match es[i].key
            case Int(_) => p == Raised
            case Text(s) => Find(es, Text(CString(s))) == |es| ==> p == Raised
            case Flt(_) => false
            case _ => p == Rejected
  {
    hide SetEntry, CString;
    var es := ts[t].entries;
    assert WellFormedEntry(es[i]);
    if es[i].key.Int? { IntegerKeyIsLost(es, es[i].key.n); }
  }

  // It decides: an integer is a Lua error, and so is a text with a NUL unless its start is
  // itself a key of the table; a key of another type makes the merge return 0.
  lemma FirstLostKeyEndsIt(ts: seq<Value>, t: nat, i: nat, turns: nat)
    requires AllTables(ts) && FirstLost(ts, t, i) && turns > TurnsTo(ts, t + 1) + 1 + i
    ensures var es := ts[t].entries;
            match es[i].key
            case Int(_) => Turns(ts, turns) == Raised
            case Text(s) => Find(es, Text(CString(s))) == |es| ==> Turns(ts, turns) == Raised
            case Flt(_) => false
            case _ => Turns(ts, turns) == Rejected
  {
    hide Turn, WellFormed, CString, Find, MergeOf, AddAll, Survives, AllSurvive, TurnsTo;
    var n := TurnsTo(ts, t + 1) + 1 + i;
    ReachesEntry(ts, t, i);
    TurnAtLostKey(ts, t, i, Turns(ts, n).merged);
    if Over(Turns(ts, n + 1)) { OverForever(ts, n + 1, turns); }
  }

  // A text whose start is a later key of its table makes the loop skip to after that key.
  lemma LaterKeyIsSkipped(ts: seq<Value>, t: nat, i: nat)
    requires AllTables(ts) && FirstLost(ts, t, i) && ts[t].entries[i].key.Text?
    requires i < Find(ts[t].entries, Copy(ts[t].entries[i].key)) < |ts[t].entries|
    ensures var j, p := Find(ts[t].entries, Copy(ts[t].entries[i].key)), Turns(ts, TurnsTo(ts, t + 1) + 2 + i);
            if j + 1 < |ts[t].entries| then p.Within? && p.t == t && p.i == j + 1 else p.Before? && p.n == t
  {
    hide WellFormed, CString, Find, MergeOf, AddAll, Survives, AllSurvive, TurnsTo, SetEntry, Turn;
    var n := TurnsTo(ts, t + 1) + 1 + i;
    ReachesEntry(ts, t, i);
    TurnAtFoundCopy(ts, Turns(ts, n));
    assert Turns(ts, n + 1) == Turn(ts, Turns(ts, n));
  }

  lemma TurnAtFoundCopy(ts: seq<Value>, p: Progress)
    requires AllTables(ts) && OnTrack(ts, p) && p.Within? && ValidKey(ts[p.t].entries[p.i].key)
    requires Find(ts[p.t].entries, Copy(ts[p.t].entries[p.i].key)) < |ts[p.t].entries|
    ensures var j, p' := Find(ts[p.t].entries, Copy(ts[p.t].entries[p.i].key)), Turn(ts, p);
            if j + 1 < |ts[p.t].entries| then p'.Within? && p'.t == p.t && p'.i == j + 1 else p'.Before? && p'.n == p.t
  {
    hide SetEntry, WellFormed, Copy;
  }

  // A text whose start is an earlier key of its table sends the loop back there for ever.
  lemma {:induction false} EarlierKeyLoopsForever(ts: seq<Value>, t: nat, i: nat, turns: nat)
    requires AllTables(ts) && FirstLost(ts, t, i) && ts[t].entries[i].key.Text?
    requires Find(ts[t].entries, Copy(ts[t].entries[i].key)) < i
    requires turns >= TurnsTo(ts, t + 1) + 1 + i
    ensures var p := Turns(ts, turns);
            p.Within? && p.t == t && Find(ts[t].entries, Copy(ts[t].entries[i].key)) < p.i <= i
    decreases turns
  {
    hide Turn, WellFormed, CString, Find, MergeOf, AddAll, Survives, AllSurvive, TurnsTo;
    if turns == TurnsTo(ts, t + 1) + 1 + i {
      ReachesEntry(ts, t, i);
    } else {
      EarlierKeyLoopsForever(ts, t, i, turns - 1);
      StaysInTheLoop(ts, t, i, Turns(ts, turns - 1));
    }
  }

  lemma StaysInTheLoop(ts: seq<Value>, t: nat, i: nat, p: Progress)
    requires AllTables(ts) && FirstLost(ts, t, i) && ts[t].entries[i].key.Text?
    requires OnTrack(ts, p) && p.Within? && p.t == t && Find(ts[t].entries, Copy(ts[t].entries[i].key)) < p.i <= i
    ensures var p' := Turn(ts, p);
            p'.Within? && p'.t == t && Find(ts[t].entries, Copy(ts[t].entries[i].key)) < p'.i <= i
  {
    hide SetEntry, WellFormed, CString;
    if p.i < i {
      assert ts[t].entries[p.i] == ts[t].entries[..i][p.i];
      TurnAtSurvivor(ts, t, p.i, p.merged);
    }
  }

  // ---------- Every entry is moved exactly if every key survives ----------

  // Where the loop stands, whatever it has gathered.
  function Place(p: Progress): Progress {
    match p
    case Before(n, _) => Before(n, [])
    case Within(t, i, _) => Within(t, i, [])
    case _ => p
  }

  lemma PlaceDecides(ts: seq<Value>, p: Progress, q: Progress)
    requires AllTables(ts) && OnTrack(ts, p) && OnTrack(ts, q) && Place(p) == Place(q)
    ensures Place(Turn(ts, p)) == Place(Turn(ts, q))
  {
  }

  // The same place twice repeats from then on ...
  lemma {:induction false} Repeats(ts: seq<Value>, a: nat, b: nat, d: nat)
    requires AllTables(ts) && Place(Turns(ts, a)) == Place(Turns(ts, b))
    ensures Place(Turns(ts, a + d)) == Place(Turns(ts, b + d))
  {
    hide Turn, AllTables, Place;
    if d > 0 {
      Repeats(ts, a, b, d - 1);
      PlaceDecides(ts, Turns(ts, a + d - 1), Turns(ts, b + d - 1));
    }
  }

  // ... and so a loop that comes back to an entry never ends.
  lemma {:induction false} NeverOver(ts: seq<Value>, a: nat, b: nat, n: nat)
    requires AllTables(ts) && a < b && Place(Turns(ts, a)) == Place(Turns(ts, b)) && Turns(ts, a).Within?
    ensures !Over(Turns(ts, n))
    decreases n
  {
    hide Turn, AllTables;
    if n <= b {
      if Over(Turns(ts, n)) { OverForever(ts, n, b); }
    } else {
      NeverOver(ts, a, b, n - (b - a));
      Repeats(ts, a, b, n - b);
    }
  }

  // A table the loop has left is not entered again.
  lemma {:induction false} LeftForGood(ts: seq<Value>, a: nat, b: nat)
    requires AllTables(ts) && a <= b && Turns(ts, a).Before?
    ensures var n, p := Turns(ts, a).n, Turns(ts, b);
            (p.Before? ==> p.n <= n) && (p.Within? ==> p.t < n)
    decreases b
  {
    if a < b { LeftForGood(ts, a, b - 1); }
  }

  predicate Stands(ts: seq<Value>, n: nat, t: nat, i: nat)
    requires AllTables(ts)
  {
    var p := Turns(ts, n);
    p.Within? && p.t == t && p.i == i
  }

  lemma SameWayOn(ts: seq<Value>, p: Progress, q: Progress)
    requires AllTables(ts) && OnTrack(ts, p) && OnTrack(ts, q) && p.Within? && q.Within? && p.t == q.t
    requires var es := ts[p.t].entries;
             && ValidKey(es[p.i].key) && ValidKey(es[q.i].key)
             && Find(es, Copy(es[p.i].key)) == Find(es, Copy(es[q.i].key)) < |es|
    ensures Place(Turn(ts, p)) == Place(Turn(ts, q))
    ensures Turn(ts, p).Within? || (Turn(ts, p).Before? && Turn(ts, p).n == p.t)
  {
    hide SetEntry, WellFormed, Copy, ValidKey, Find;
  }

  // A text cut at a NUL and the key it is cut to lead to the same place, so a loop that
  // visits both never ends.
  lemma CutKeyIsNotVisited(ts: seq<Value>, t: nat, i: nat, j: nat, n: nat, m: nat, over: nat)
    requires AllTables(ts) && t < |ts| && i < |ts[t].entries| && j < |ts[t].entries| && n < m
    requires var es := ts[t].entries;
             && ValidKey(es[i].key) && ValidKey(es[j].key)
             && Find(es, Copy(es[i].key)) == Find(es, Copy(es[j].key)) < |es|
    requires Stands(ts, n, t, i) && Stands(ts, m, t, j)
    ensures !Over(Turns(ts, over))
  {
    hide AllTables, WellFormed, Copy, ValidKey, Turn, Find;
    SameWayOn(ts, Turns(ts, n), Turns(ts, m));
    if Turns(ts, n + 1).Within? {
      NeverOver(ts, n + 1, m + 1, over);
    } else {
      LeftForGood(ts, n + 1, m);
    }
  }

  ghost predicate Visited(ts: seq<Value>, t: nat, i: nat)
    requires AllTables(ts)
  {
    exists n :: Stands(ts, n, t, i)
  }

  // The loop ends with a merged table after visiting every entry of every table.
  ghost predicate MovesEverything(ts: seq<Value>)
    requires AllTables(ts)
  {
    && (exists n :: Over(Turns(ts, n)) && Turns(ts, n).Before?)
    && (forall t, i :: 0 <= t < |ts| && 0 <= i < |ts[t].entries| ==> Visited(ts, t, i))
  }

  lemma SurvivorsAreAllMoved(ts: seq<Value>)
    requires AllTables(ts) && SurviveFrom(ts, 0)
    ensures MovesEverything(ts)
  {
    hide Turns, MergeOf, AddAll, TurnsTo, Survives;
    MergeReturnsTheUnion(ts, TurnsTo(ts, 0));
    assert Over(Turns(ts, TurnsTo(ts, 0))) && Turns(ts, TurnsTo(ts, 0)).Before?;
    forall t, i | 0 <= t < |ts| && 0 <= i < |ts[t].entries| ensures Visited(ts, t, i) {
      ReachesEntry(ts, t, i);
      assert Stands(ts, TurnsTo(ts, t + 1) + 1 + i, t, i);
    }
  }

  lemma LostKeyIsNotMoved(ts: seq<Value>, t: nat, i: nat)
    requires AllTables(ts) && t < |ts| && i < |ts[t].entries| && !Survives(ts[t].entries[i].key)
    ensures !MovesEverything(ts)
  {
    hide WellFormed, Survives, Turns;
    if MovesEverything(ts) {
      var es := ts[t].entries;
      var over :| Over(Turns(ts, over)) && Turns(ts, over).Before?;
      assert Visited(ts, t, i);
      var n :| Stands(ts, n, t, i);
      LostKeyBlocks(ts, t, i, n, over);
      var j := Find(es, Copy(es[i].key));
      assert Visited(ts, t, j);
      var m :| Stands(ts, m, t, j);
      if n < m {
        CutKeyIsNotVisited(ts, t, i, j, n, m, over);
      } else {
        CutKeyIsNotVisited(ts, t, j, i, m, n, over);
      }
    }
  }

  // A lost key that is visited in a loop that ends well is a text cut to another key.
  lemma LostKeyBlocks(ts: seq<Value>, t: nat, i: nat, n: nat, over: nat)
    requires AllTables(ts) && t < |ts| && i < |ts[t].entries| && !Survives(ts[t].entries[i].key)
    requires Stands(ts, n, t, i) && Over(Turns(ts, over)) && Turns(ts, over).Before?
    ensures var es := ts[t].entries;
            && ValidKey(es[i].key)
            && var j := Find(es, Copy(es[i].key));
               j < |es| && j != i && ValidKey(es[j].key) && Find(es, Copy(es[j].key)) == j
  {
    hide Find, WellFormed, SetEntry, CString, Survives, Turn;
    TurnAtLostKey(ts, t, i, Turns(ts, n).merged);
    if Over(Turns(ts, n + 1)) {
      OverForever(ts, n + 1, n + 1 + over);
      OverForever(ts, over, n + 1 + over);
    }
    CutKeyIsItsOwnCopy(ts[t].entries, i);
  }

  lemma CutKeyIsItsOwnCopy(es: seq<Entry>, i: nat)
    requires i < |es| && !Survives(es[i].key) && (ValidKey(es[i].key) ==> es[i].key.Text?)
    ensures ValidKey(es[i].key) ==>
              var j := Find(es, Copy(es[i].key));
              j < |es| ==> j != i && ValidKey(es[j].key) && Find(es, Copy(es[j].key)) == j
  {
  }

  // The merge moves every entry of every table, and so returns the union, if and only if
  // every key is a text without NUL or a float without an integer value.
  lemma MovesEverythingExactly(ts: seq<Value>)
    requires AllTables(ts)
    ensures MovesEverything(ts) <==> SurviveFrom(ts, 0)
  {
    hide MovesEverything, Survives;
    if SurviveFrom(ts, 0) {
      SurvivorsAreAllMoved(ts);
    } else {
      var t, i :| 0 <= t < |ts| && 0 <= i < |ts[t].entries| && !Survives(ts[t].entries[i].key);
      LostKeyIsNotMoved(ts, t, i);
    }
  }

  // The plainest failure: a table with a text key below a table with the key 1.
  lemma ArrayBelowTextIsAnError(turns: nat)
    requires turns >= 2
    ensures var ts := [Table([Entry(Text("x"), Int(1))]), Table([Entry(Int(1), Text("a"))])];
            AllTables(ts) && Turns(ts, turns) == Raised
  {
    var es, es' := [Entry(Text("x"), Int(1))], [Entry(Int(1), Text("a"))];
    var ts := [Table(es), Table(es')];
    assert WellFormed(es) && WellFormed(es');
    assert FirstLost(ts, 1, 0);
    assert TurnsTo(ts, 2) == 0;
    FirstLostKeyEndsIt(ts, 1, 0, turns);
  }

  // ---------- What the merged table holds ----------

  // The value of k in the table nearest the stack bottom that has k.
  function NearestBottom(ts: seq<Value>, k: Value): Value
    requires AllTables(ts)
  {
    if ts == [] then Nil
    else if !Lookup(ts[0].entries, k).Nil? then Lookup(ts[0].entries, k)
    else NearestBottom(ts[1..], k)
  }

  lemma {:induction false} AddAllOverrides(acc: seq<Entry>, es: seq<Entry>, k: Value)
    requires Distinct(acc) && WellFormed(es)
    ensures Distinct(AddAll(acc, es))
    ensures Lookup(AddAll(acc, es), k) == if Lookup(es, k).Nil? then Lookup(acc, k) else Lookup(es, k)
    decreases |es|
  {
    if es != [] {
      var init, last := es[..|es| - 1], es[|es| - 1];
      AddAllOverrides(acc, init, k);
      SetThenLookup(AddAll(acc, init), last.key, last.val, k);
      assert WellFormedEntry(last);
      SetThenLookup(init, last.key, last.val, k);
      assert Find(init, last.key) == |init|;
      assert es == SetEntry(init, last.key, last.val);
    }
  }

  // The merged table is the union of the tables, each key once, with the table nearest the
  // stack bottom winning.
  lemma {:induction false} MergeIsUnionBottomWins(ts: seq<Value>, k: Value)
    requires AllTables(ts)
    ensures Distinct(MergeOf(ts)) && Lookup(MergeOf(ts), k) == NearestBottom(ts, k)
    decreases |ts|
  {
    if ts != [] {
      MergeIsUnionBottomWins(ts[1..], k);
      AddAllOverrides(MergeOf(ts[1..]), ts[0].entries, k);
    }
  }
}
