/** ztable_to_lua of src/lua.c: the stack machine that turns a record stream back into a
    Lua table, and what it makes of a stream that lua_to_ztable wrote. */
module TableRebuild {
  import opened CStrings
  import opened LuaValues
  import opened RecordStream

  // The Lua stack and the stack of positions of the tables being filled.
  datatype Machine = Machine(stack: seq<Value>, ti: seq<nat>)

  // A run goes on, returns, or does something C or Lua leaves undefined: a nil key, an
  // overflowing key, a position outside the fixed array of 128, or a push beyond the room
  // the Lua stack has, which the code never asks to be enlarged.
  datatype Outcome = Running(m: Machine) | Returned(ok: bool, stack: seq<Value>) | Stuck

  const MAX_OPEN := 128

  predicate CanSet(stack: seq<Value>, index: nat) {
    1 <= index <= |stack| - 2 && stack[index - 1].Table? && !stack[|stack| - 2].Nil?
  }

  function Push(m: Machine, v: Value, room: nat): Outcome {
    if |m.stack| < room then Running(m.(stack := m.stack + [v])) else Stuck
  }

  function Set(stack: seq<Value>, ti: seq<nat>): Outcome {
    if ti != [] && CanSet(stack, ti[|ti| - 1]) then Running(Machine(SetTop(stack, ti[|ti| - 1]), ti)) else Stuck
  }

  function PushAndSet(m: Machine, v: Value, room: nat): Outcome {
    var o := Push(m, v, room);
    if o.Running? then Set(o.m.stack, m.ti) else o
  }

  // lua_pushstring of a text record; an empty text was stored as a null pointer.
  function PushedText(s: string): Value {
    if s == "" then Nil else Text(s)
  }

  function StepKey(m: Machine, k: Key, room: nat): Outcome {
    match k
    case NoKey => Returned(true, m.stack)
    case IntKey(n) => if n >= INT_MAX then Stuck else Push(m, Flt((n + 1) as real), room)
    case TextKey(s) => Push(m, PushedText(s), room)
    case Terminator => if |m.ti| < 2 then Stuck else Set(m.stack, m.ti[..|m.ti| - 1])
  }

  function StepVal(m: Machine, v: Val, room: nat): Outcome {
    match v
    case NoVal => Returned(false, m.stack)
    case Null => Running(m)
    case IntVal(n) => PushAndSet(m, Flt(n as real), room)
    case TextVal(s) => PushAndSet(m, PushedText(s), room)
    case TableVal =>
      if |m.ti| >= MAX_OPEN || |m.stack| >= room then Stuck
      else Running(Machine(m.stack + [Table([])], m.ti + [|m.stack| + 1]))
  }

  function Step(m: Machine, r: Record, room: nat): Outcome {
    var o := StepKey(m, r.key, room);
    if o.Running? then StepVal(o.m, r.val, room) else o
  }

  function Run(m: Machine, rs: seq<Record>, room: nat): Outcome
    decreases |rs|
  {
    if rs == [] then Running(m)
    else
      var o := Step(m, rs[0], room);
      if o.Running? then Run(o.m, rs[1..], room) else o
  }

  const START := Machine([Table([])], [1])

  // From an empty Lua stack with room for so many values.
  function Rebuild(rs: seq<Record>, room: nat): Outcome {
    if room < 1 then Stuck else Run(START, rs, room)
  }

  // Rebuilds t on an empty Lua stack; the first table is taken to be at position 1.
  method ZtableToLua(L: LuaState, t: ZTable, ghost room: nat) returns (ok: bool)
    requires L.stack == [] && !Rebuild(t.records, room).Stuck?
    modifies L
    ensures var o := Rebuild(t.records, room);
            if o.Running? then ok && L.stack == o.m.stack else ok == o.ok && L.stack == o.stack
  {
    var ti := new nat[MAX_OPEN];
    var xi := 0;
    L.Push(Table([]));
    ti[0] := 1;
    assert L.stack == [Table([])] && ti[..1] == [1] && t.records[0..] == t.records;
    for n := 0 to |t.records|
      invariant 0 <= xi < MAX_OPEN
      invariant Rebuild(t.records, room) == Run(Machine(L.stack, ti[..xi + 1]), t.records[n..], room)
    {
      hide StepKey, StepVal;
      var r := t.records[n];
      assert t.records[n..][1..] == t.records[n + 1..];
      assert !Step(Machine(L.stack, ti[..xi + 1]), r, room).Stuck?;
      if r.key == NoKey {
        StepReturns(Machine(L.stack, ti[..xi + 1]), r.val, room);
        return true;
      }
      StepGoesOn(Machine(L.stack, ti[..xi + 1]), r, room);
      xi := PushKey(L, ti, xi, r.key, room);
      if r.val == NoVal {
        StepReturns(Machine(L.stack, ti[..xi + 1]), r.val, room);
        return false;
      }
      StepGoesOn(Machine(L.stack, ti[..xi + 1]), r, room);
      xi := PushValue(L, ti, xi, r.val, room);
    }
    return true;
  }

  lemma StepReturns(m: Machine, v: Val, room: nat)
    ensures StepKey(m, NoKey, room) == Returned(true, m.stack) && StepVal(m, NoVal, room) == Returned(false, m.stack)
  {
  }

  // Only an absent key or value makes a step return.
  lemma StepGoesOn(m: Machine, r: Record, room: nat)
    ensures r.key != NoKey ==> !StepKey(m, r.key, room).Returned?
    ensures r.val != NoVal ==> !StepVal(m, r.val, room).Returned?
  {
  }

  // The key's half of one record: pushes it, or assigns a finished table to its parent.
  method PushKey(L: LuaState, ti: array<nat>, xi: nat, k: Key, ghost room: nat) returns (xi': nat)
    requires ti.Length == MAX_OPEN && xi < MAX_OPEN
    requires StepKey(Machine(L.stack, ti[..xi + 1]), k, room).Running?
    modifies L
    ensures xi' <= xi
    ensures StepKey(Machine(old(L.stack), ti[..xi + 1]), k, room) == Running(Machine(L.stack, ti[..xi' + 1]))
  {
    xi' := xi;
    if k.IntKey? {
      L.Push(Flt((k.n + 1) as real));
    } else if k.TextKey? {
      L.Push(PushedText(k.s));
    } else {
      assert ti[..xi + 1][..xi] == ti[..xi];
      xi' := xi - 1;
      L.SetTable(ti[xi']);
    }
  }

  // The value's half: assigns a scalar, or opens a nested table.
  method PushValue(L: LuaState, ti: array<nat>, xi: nat, v: Val, ghost room: nat) returns (xi': nat)
    requires ti.Length == MAX_OPEN && xi < MAX_OPEN
    requires StepVal(Machine(L.stack, ti[..xi + 1]), v, room).Running?
    modifies L, ti
    ensures xi' < MAX_OPEN
    ensures StepVal(Machine(old(L.stack), old(ti[..xi + 1])), v, room) == Running(Machine(L.stack, ti[..xi' + 1]))
  {
    xi' := xi;
    if v == TableVal {
      L.Push(Table([]));
      xi' := xi + 1;
      ti[xi'] := |L.stack|;
      assert ti[..xi' + 1] == old(ti[..xi + 1]) + [|L.stack|];
    } else if v != Null {
      L.Push(if v.IntVal? then Flt(v.n as real) else PushedText(v.s));
      L.SetTable(ti[xi]);
    }
  }

  // ---------- What comes back ----------

  // A key as it is pushed, and as the assignment stores it: the shifts by one cancel.
  function KeyPushed(k: Value): Value
    requires ValidKey(k)
  {
    if IsNumber(k) then Flt((ToInt(ToInteger(k) - 1) + 1) as real) else PushedText(CString(k.s))
  }

  function KeyBack(k: Value): Value
    requires ValidKey(k)
  {
    if IsNumber(k) then Int(ToInt(ToInteger(k) - 1) + 1) else PushedText(CString(k.s))
  }

  // The table the entries come back as: the same assignments in the same order, with every
  // scalar as its record kept it.
  function Canon(es: seq<Entry>): seq<Entry>
    requires ValidKeys(es)
  {
    if es == [] then []
    else
      var last := es[|es| - 1];
      assert ValidEntry(last);
      SetEntry(Canon(es[..|es| - 1]), KeyBack(last.key), ValueBack(last))
  }

  function ValueBack(e: Entry): Value
    requires ValidEntry(e)
  {
    if e.val.Table? then Table(Canon(e.val.entries))
    else
      match ScalarRecord(e.val)
      case IntVal(n) => Flt(n as real)
      case TextVal(s) => PushedText(s)
  }

  // ---------- Which tables can be rebuilt ----------

  // No key at any depth is written as an empty text or as the largest integer.
  predicate Assignable(es: seq<Entry>)
    requires ValidKeys(es)
  {
    forall i :: 0 <= i < |es| ==> ValidEntry(es[i]) && AssignableEntry(es[i])
  }

  predicate AssignableKey(k: Value)
    requires ValidKey(k)
  {
    if IsNumber(k) then ToInt(ToInteger(k) - 1) < INT_MAX else CString(k.s) != ""
  }

  predicate AssignableEntry(e: Entry)
    requires ValidEntry(e)
  {
    AssignableKey(e.key) && (e.val.Table? ==> Assignable(e.val.entries))
  }

  function Max(a: nat, b: nat): nat { if a < b then b else a }

  // How deep tables are nested.
  function Depth(es: seq<Entry>): nat {
    if es == [] then 0 else Max(Depth(es[..|es| - 1]), DepthAt(es[|es| - 1]))
  }

  function DepthAt(e: Entry): nat {
    if e.val.Table? then 1 + Depth(e.val.entries) else 0
  }

  // The stack slots that filling a table takes above it: each open level holds a key and a
  // value or the table being filled.
  function Slots(es: seq<Entry>): nat {
    if es == [] then 0 else Max(Slots(es[..|es| - 1]), SlotsAt(es[|es| - 1]))
  }

  function SlotsAt(e: Entry): nat {
    2 + if e.val.Table? then Slots(e.val.entries) else 0
  }

  // Depth decides the slots up to two.
  lemma {:induction false} SlotsByDepth(es: seq<Entry>)
    ensures 2 * Depth(es) <= Slots(es) <= 2 * Depth(es) + 2
  {
    if es != [] {
      SlotsByDepth(es[..|es| - 1]);
      SlotsByDepthAt(es[|es| - 1]);
    }
  }

  lemma {:induction false} SlotsByDepthAt(e: Entry)
    ensures 2 * DepthAt(e) <= SlotsAt(e) <= 2 * DepthAt(e) + 2
  {
    if e.val.Table? { SlotsByDepth(e.val.entries); }
  }

  // Filling the table on top of a stack of so many values, with so many tables open, stays
  // within the room, the array of positions and what can be a key.
  predicate Fits(es: seq<Entry>, height: nat, open: nat, room: nat)
    requires ValidKeys(es)
  {
    Assignable(es) && height + Slots(es) <= room && open + Depth(es) <= MAX_OPEN
  }

  predicate FitsEntry(e: Entry, height: nat, open: nat, room: nat)
    requires ValidEntry(e)
  {
    AssignableEntry(e) && height + SlotsAt(e) <= room && open + DepthAt(e) <= MAX_OPEN
  }

  lemma FitsSnoc(es: seq<Entry>, height: nat, open: nat, room: nat)
    requires ValidKeys(es) && es != []
    ensures ValidKeys(es[..|es| - 1]) && ValidEntry(es[|es| - 1])
    ensures Fits(es, height, open, room) <==>
            Fits(es[..|es| - 1], height, open, room) && FitsEntry(es[|es| - 1], height, open, room)
  {
    hide AssignableEntry, DepthAt, SlotsAt, Assignable, ValidEntry;
    AssignableSnoc(es);
  }

  lemma AssignableSnoc(es: seq<Entry>)
    requires ValidKeys(es) && es != []
    ensures var init, last := es[..|es| - 1], es[|es| - 1];
            && ValidKeys(init) && ValidEntry(last)
            && (Assignable(es) <==> Assignable(init) && AssignableEntry(last))
  {
    hide AssignableEntry, ValidEntry;
    var init, last := es[..|es| - 1], es[|es| - 1];
    assert es == init + [last];
    assert forall i :: 0 <= i < |init| ==> init[i] == es[i];
  }

  lemma FitsTable(e: Entry, height: nat, open: nat, room: nat)
    requires ValidEntry(e)
    ensures FitsEntry(e, height, open, room) <==>
            && AssignableKey(e.key) && height + 2 <= room
            && (if e.val.Table?
                then open < MAX_OPEN && Fits(e.val.entries, height + 2, open + 1, room)
                else open <= MAX_OPEN)
  {
  }

  // ---------- Running a flattened table ----------

  lemma {:induction false} RunConcat(m: Machine, a: seq<Record>, b: seq<Record>, room: nat)
    ensures Run(m, a + b, room) ==
            var o := Run(m, a, room);
            if o.Running? then Run(o.m, b, room) else o
    decreases |a|
  {
    hide Step;
    if a == [] {
      assert a + b == b;
    } else {
      assert (a + b)[0] == a[0] && (a + b)[1..] == a[1..] + b;
      var o := Step(m, a[0], room);
      if o.Running? {
        RunConcat(o.m, a[1..], b, room);
      }
    }
  }

  lemma RunOne(m: Machine, r: Record, room: nat)
    ensures Run(m, [r], room) == Step(m, r, room)
  {
    hide Step;
    assert [r][1..] == [];
  }

  // The machine while the table on top of base is being filled.
  function Filling(base: seq<Value>, ti: seq<nat>, es: seq<Entry>): Machine {
    Machine(base + [Table(es)], ti + [|base| + 1])
  }

  // Running the records of a table fills exactly the table on top of the stack, or gets
  // stuck if something does not fit.
  lemma {:induction false} RunTable(base: seq<Value>, ti: seq<nat>, es: seq<Entry>, room: nat)
    requires ValidKeys(es) && |base| < room && |ti| < MAX_OPEN
    ensures Run(Filling(base, ti, []), Flatten(es), room) ==
            if Fits(es, |base| + 1, |ti| + 1, room) then Running(Filling(base, ti, Canon(es))) else Stuck
    decreases es, 2
  {
    hide Step, Filling, Fits, FitsEntry, FlattenEntry, KeyBack, ValueBack, SetEntry;
    if es == [] {
      FitsNothing(|base| + 1, |ti| + 1, room);
    } else {
      var init, last := es[..|es| - 1], es[|es| - 1];
      FitsSnoc(es, |base| + 1, |ti| + 1, room);
      RunTable(base, ti, init, room);
      RunConcat(Filling(base, ti, []), Flatten(init), FlattenEntry(last), room);
      RunEntry(base, ti, Canon(init), last, room);
    }
  }

  lemma FitsNothing(height: nat, open: nat, room: nat)
    requires height <= room && open <= MAX_OPEN
    ensures Fits([], height, open, room)
  {
  }

  lemma {:induction false} RunEntry(base: seq<Value>, ti: seq<nat>, sofar: seq<Entry>, e: Entry, room: nat)
    requires ValidEntry(e) && |base| < room && |ti| < MAX_OPEN
    ensures Run(Filling(base, ti, sofar), FlattenEntry(e), room) ==
            if FitsEntry(e, |base| + 1, |ti| + 1, room)
            then Running(Filling(base, ti, SetEntry(sofar, KeyBack(e.key), ValueBack(e)))) else Stuck
    decreases e, 1
  {
    if e.val.Table? {
      RunTableEntry(base, ti, sofar, e, room);
    } else {
      RunScalarEntry(base, ti, sofar, e, room);
    }
  }

  // The key of an entry, pushed above the table being filled.
  lemma PushTheKey(base: seq<Value>, ti: seq<nat>, sofar: seq<Entry>, k: Value, room: nat)
    requires ValidKey(k)
    ensures var o := StepKey(Filling(base, ti, sofar), KeyRecord(k), room);
            if (IsNumber(k) ==> AssignableKey(k)) && |base| + 1 < room
            then o == Running(Machine(base + [Table(sofar), KeyPushed(k)], ti + [|base| + 1]))
            else o == Stuck
    ensures KeyPushed(k).Nil? <==> !IsNumber(k) && !AssignableKey(k)
    ensures AssignableKey(k) ==> AsKey(KeyPushed(k)) == KeyBack(k)
  {
    hide ToInt, CString, ToInteger;
    assert base + [Table(sofar)] + [KeyPushed(k)] == base + [Table(sofar), KeyPushed(k)];
    if IsNumber(k) {
      var n := ToInt(ToInteger(k) - 1) + 1;
      assert (n as real).Floor == n;
    }
  }

  // A value above its key is assigned to the table being filled.
  lemma SetOnTop(base: seq<Value>, ti: seq<nat>, sofar: seq<Entry>, k: Value, v: Value)
    ensures Set(base + [Table(sofar), k, v], ti + [|base| + 1]) ==
            if k.Nil? then Stuck else Running(Filling(base, ti, SetEntry(sofar, AsKey(k), v)))
  {
    hide SetEntry, AsKey;
    var stack := base + [Table(sofar), k, v];
    assert (ti + [|base| + 1])[|ti|] == |base| + 1;
    if !k.Nil? {
      assert SetTop(stack, |base| + 1) == base + [Table(SetEntry(sofar, AsKey(k), v))];
    }
  }

  lemma PushTheValue(base: seq<Value>, ti: seq<nat>, sofar: seq<Entry>, k: Value, e: Entry, room: nat)
    requires ValidEntry(e) && !e.val.Table?
    ensures StepVal(Machine(base + [Table(sofar), k], ti + [|base| + 1]), ScalarRecord(e.val), room) ==
            if k.Nil? || |base| + 2 >= room then Stuck
            else Running(Filling(base, ti, SetEntry(sofar, AsKey(k), ValueBack(e))))
  {
    hide SetEntry, AsKey, ToInt, CString, ToInteger, Set, Filling;
    var v := ValueBack(e);
    assert base + [Table(sofar), k] + [v] == base + [Table(sofar), k, v];
    SetOnTop(base, ti, sofar, k, v);
  }

  lemma RunScalarEntry(base: seq<Value>, ti: seq<nat>, sofar: seq<Entry>, e: Entry, room: nat)
    requires ValidEntry(e) && !e.val.Table? && |base| < room && |ti| < MAX_OPEN
    ensures Run(Filling(base, ti, sofar), FlattenEntry(e), room) ==
            if FitsEntry(e, |base| + 1, |ti| + 1, room)
            then Running(Filling(base, ti, SetEntry(sofar, KeyBack(e.key), ValueBack(e)))) else Stuck
  {
    hide SetEntry, AsKey, AssignableKey, KeyPushed, KeyBack, ValueBack, KeyRecord, ScalarRecord, StepKey, StepVal;
    hide Filling, FitsEntry, Run;
    FitsTable(e, |base| + 1, |ti| + 1, room);
    RunOne(Filling(base, ti, sofar), Record(KeyRecord(e.key), ScalarRecord(e.val)), room);
    PushTheKey(base, ti, sofar, e.key, room);
    PushTheValue(base, ti, sofar, KeyPushed(e.key), e, room);
  }

  // Opening a nested table above its key.
  lemma OpenTheTable(base: seq<Value>, ti: seq<nat>, sofar: seq<Entry>, k: Value, room: nat)
    ensures var inner := base + [Table(sofar), k];
            StepVal(Machine(inner, ti + [|base| + 1]), TableVal, room) ==
              if |ti| + 1 >= MAX_OPEN || |base| + 2 >= room then Stuck
              else Running(Filling(inner, ti + [|base| + 1], []))
  {
  }

  // Its closing record assigns it to its parent.
  lemma CloseTheTable(base: seq<Value>, ti: seq<nat>, sofar: seq<Entry>, k: Value, es: seq<Entry>, room: nat)
    ensures Step(Filling(base + [Table(sofar), k], ti + [|base| + 1], es), CLOSE, room) ==
            if k.Nil? then Stuck else Running(Filling(base, ti, SetEntry(sofar, AsKey(k), Table(es))))
  {
    hide SetEntry, AsKey, Set;
    var inner := base + [Table(sofar), k];
    var all := ti + [|base| + 1] + [|inner| + 1];
    assert all[..|all| - 1] == ti + [|base| + 1];
    assert inner + [Table(es)] == base + [Table(sofar), k, Table(es)];
    SetOnTop(base, ti, sofar, k, Table(es));
  }

  lemma {:induction false} RunTableEntry(base: seq<Value>, ti: seq<nat>, sofar: seq<Entry>, e: Entry, room: nat)
    requires ValidEntry(e) && e.val.Table? && |base| < room && |ti| < MAX_OPEN
    ensures Run(Filling(base, ti, sofar), FlattenEntry(e), room) ==
            if FitsEntry(e, |base| + 1, |ti| + 1, room)
            then Running(Filling(base, ti, SetEntry(sofar, KeyBack(e.key), ValueBack(e)))) else Stuck
    decreases e, 0
  {
    hide SetEntry, AsKey, AssignableKey, KeyPushed, KeyBack, KeyRecord, StepKey, StepVal;
    hide Filling, FitsEntry, Fits, Run, Flatten, Canon;
    var m, k, es := Filling(base, ti, sofar), KeyPushed(e.key), e.val.entries;
    var opener, inner, ti' := Record(KeyRecord(e.key), TableVal), base + [Table(sofar), k], ti + [|base| + 1];
    FitsTable(e, |base| + 1, |ti| + 1, room);
    assert FlattenEntry(e) == [opener] + (Flatten(es) + [CLOSE]);
    RunConcat(m, [opener], Flatten(es) + [CLOSE], room);
    RunOne(m, opener, room);
    PushTheKey(base, ti, sofar, e.key, room);
    OpenTheTable(base, ti, sofar, k, room);
    if |ti| + 1 < MAX_OPEN && |base| + 2 < room {
      RunConcat(Filling(inner, ti', []), Flatten(es), [CLOSE], room);
      RunTable(inner, ti', es, room);
      RunOne(Filling(inner, ti', Canon(es)), CLOSE, room);
      CloseTheTable(base, ti, sofar, k, Canon(es), room);
    }
  }

  // A flattened table is rebuilt exactly if its keys can be assigned, it is nested at most
  // 127 deep and the Lua stack has the room; then exactly one value is left on the stack,
  // the table with the same assignments.
  lemma RebuildsTheTable(es: seq<Entry>, room: nat)
    requires ValidKeys(es)
    ensures Rebuild(Flatten(es), room) ==
            if Assignable(es) && Depth(es) < MAX_OPEN && 1 + Slots(es) <= room
            then Running(Machine([Table(Canon(es))], [1])) else Stuck
  {
    hide Run, Flatten, Canon, Assignable, Slots, Depth;
    if room > 0 {
      RunTable([], [], es, room);
      assert [] + [Table([])] == [Table([])] && [] + [1] == [1];
      assert [] + [Table(Canon(es))] == [Table(Canon(es))];
    }
  }

  // In terms of the depth alone: two slots for each level and three more are enough, and one
  // more than two for each level is needed.
  lemma RoomForTheDepth(es: seq<Entry>, room: nat)
    requires ValidKeys(es) && Assignable(es) && Depth(es) < MAX_OPEN
    ensures 2 * Depth(es) + 3 <= room ==> Rebuild(Flatten(es), room) == Running(Machine([Table(Canon(es))], [1]))
    ensures room < 2 * Depth(es) + 1 ==> Rebuild(Flatten(es), room) == Stuck
  {
    hide Flatten, Canon, Assignable, Rebuild;
    RebuildsTheTable(es, room);
    SlotsByDepth(es);
  }

  // The room Lua guarantees a C function is used up at the tenth level of nesting.
  const MIN_STACK := 20

  lemma GuaranteedRoom(es: seq<Entry>)
    requires ValidKeys(es) && Assignable(es)
    ensures Depth(es) <= 8 ==> Rebuild(Flatten(es), MIN_STACK) == Running(Machine([Table(Canon(es))], [1]))
    ensures Depth(es) >= 10 ==> Rebuild(Flatten(es), MIN_STACK) == Stuck
  {
    hide Flatten, Canon, Assignable, Rebuild;
    RebuildsTheTable(es, MIN_STACK);
    SlotsByDepth(es);
  }

  // ---------- When it is the same table ----------

  // Integers that fit a C int and texts without NUL, non-empty, at every depth.
  predicate Plain(es: seq<Entry>) {
    forall i :: 0 <= i < |es| ==> PlainEntry(es[i])
  }

  predicate PlainText(s: string) { s != "" && '\0' !in s }

  predicate PlainKey(k: Value) {
    match k
    case Int(n) => INT_MIN < n <= INT_MAX
    case Text(s) => PlainText(s)
    case _ => false
  }

  predicate PlainEntry(e: Entry) {
    && PlainKey(e.key)
    && (match e.val
        case Int(n) => INT_MIN <= n <= INT_MAX
        case Flt(x) => Integral(x) && INT_MIN <= x.Floor <= INT_MAX
        case Text(s) => PlainText(s)
        case Table(sub) => Plain(sub)
        case _ => false)
  }

  // The same table with every integer value as the float that equals it: what can be told of
  // it by Lua's ==.
  function AsFloats(es: seq<Entry>): (fs: seq<Entry>)
    ensures |fs| == |es|
  {
    if es == [] then [] else AsFloats(es[..|es| - 1]) + [AsFloat(es[|es| - 1])]
  }

  function AsFloat(e: Entry): Entry {
    match e.val
    case Int(n) => Entry(e.key, Flt(n as real))
    case Table(sub) => Entry(e.key, Table(AsFloats(sub)))
    case _ => e
  }

  lemma KeyBackSame(k: Value)
    requires ValidKey(k) && AssignableKey(k) && AsKey(k) == k
    ensures KeyBack(k) == k <==> PlainKey(k)
  {
  }

  lemma {:induction false} CanonNoLonger(es: seq<Entry>)
    requires ValidKeys(es)
    ensures |Canon(es)| <= |es|
  {
    hide KeyBack, ValueBack;
    if es != [] { CanonNoLonger(es[..|es| - 1]); }
  }

  lemma {:induction false} AsFloatsKeys(es: seq<Entry>, k: Value)
    ensures Find(AsFloats(es), k) == |es| <==> Find(es, k) == |es|
  {
    forall i | 0 <= i < |es| ensures AsFloats(es)[i].key == es[i].key {
      AsFloatsAt(es, i);
    }
  }

  lemma {:induction false} AsFloatsAt(es: seq<Entry>, i: nat)
    requires i < |es|
    ensures AsFloats(es)[i] == AsFloat(es[i])
    decreases |es|
  {
    hide AsFloat;
    if i < |es| - 1 { AsFloatsAt(es[..|es| - 1], i); }
  }

  lemma ScalarBackSame(e: Entry)
    requires ValidEntry(e) && WellFormedEntry(e) && !e.val.Table? && PlainKey(e.key)
    ensures ValueBack(e) == AsFloat(e).val <==> PlainEntry(e)
  {
    if e.val.Int? || e.val.Flt? {
      var n := ToInt(ToInteger(e.val));
      assert (n as real).Floor == n;
    }
  }

  lemma {:induction false} ValueBackSame(e: Entry)
    requires ValidEntry(e) && AssignableEntry(e) && WellFormedEntry(e)
    ensures KeyBack(e.key) == e.key && ValueBack(e) == AsFloat(e).val <==> PlainEntry(e)
    decreases e, 1
  {
    hide KeyBack, AssignableKey, ToInt, ToInteger, CString;
    KeyBackSame(e.key);
    if e.val.Table? {
      CanonIsSameExactly(e.val.entries);
    } else if PlainKey(e.key) {
      ScalarBackSame(e);
    }
  }

  lemma {:induction false} CanonIsSameExactly(es: seq<Entry>)
    requires ValidKeys(es) && Assignable(es) && WellFormed(es)
    ensures Canon(es) == AsFloats(es) <==> Plain(es)
    decreases es, 0
  {
    hide Canon, KeyBack, ValueBack, PlainEntry, AsFloat, AsFloats, Plain, AssignableEntry;
    if es == [] {
      CanonOfNothing();
    } else {
      var init, last := es[..|es| - 1], es[|es| - 1];
      assert AssignableEntry(last) && WellFormedEntry(last) && ValidEntry(last);
      CanonIsSameExactly(init);
      ValueBackSame(last);
      PlainSnoc(es);
      CanonSnoc(es);
    }
  }

  lemma CanonOfNothing()
    ensures Canon([]) == AsFloats([]) && Plain([])
  {
  }

  // The whole comes back the same exactly if the last entry and the ones before it do.
  lemma CanonSnoc(es: seq<Entry>)
    requires ValidKeys(es) && WellFormed(es) && es != []
    ensures var init, last := es[..|es| - 1], es[|es| - 1];
            && ValidKeys(init) && ValidEntry(last)
            && (Canon(es) == AsFloats(es) <==>
                  Canon(init) == AsFloats(init) && KeyBack(last.key) == last.key && ValueBack(last) == AsFloat(last).val)
  {
    hide KeyBack, ValueBack, SetEntry, AsFloat, WellFormed;
    var init, last := es[..|es| - 1], es[|es| - 1];
    assert ValidEntry(last);
    CanonNoLonger(init);
    AsFloatKey(last);
    AssignsLast(es);
    if Canon(es) == AsFloats(es) {
      SetGrows(Canon(init), KeyBack(last.key), ValueBack(last), AsFloats(init), AsFloat(last));
    }
  }

  // Assigning the last entry, as floats, to the ones before it appends it.
  lemma AssignsLast(es: seq<Entry>)
    requires WellFormed(es) && es != []
    ensures var last := AsFloat(es[|es| - 1]);
            SetEntry(AsFloats(es[..|es| - 1]), last.key, last.val) == AsFloats(es)
  {
    hide SetEntry, AsFloat, Find;
    var init, last := es[..|es| - 1], es[|es| - 1];
    assert WellFormedEntry(last);
    AsFloatKey(last);
    LastIsNew(es);
    AsFloatsKeys(init, last.key);
    SetNew(AsFloats(init), last.key, AsFloat(last).val);
  }

  lemma AsFloatKey(e: Entry)
    ensures AsFloat(e).key == e.key && (AsFloat(e).val.Nil? <==> e.val.Nil?)
  {
  }

  lemma PlainSnoc(es: seq<Entry>)
    requires es != []
    ensures Plain(es) <==> Plain(es[..|es| - 1]) && PlainEntry(es[|es| - 1])
  {
    hide PlainEntry;
    assert es == es[..|es| - 1] + [es[|es| - 1]];
  }

  lemma LastIsNew(es: seq<Entry>)
    requires es != [] && Distinct(es)
    ensures Find(es[..|es| - 1], es[|es| - 1].key) == |es| - 1
  {
  }

  lemma SetNew(es: seq<Entry>, k: Value, v: Value)
    requires Find(es, k) == |es| && !v.Nil?
    ensures SetEntry(es, k, v) == es + [Entry(k, v)]
  {
  }

  // An assignment that makes a table one entry longer appended that entry.
  lemma SetGrows(es: seq<Entry>, k: Value, v: Value, init: seq<Entry>, last: Entry)
    requires |es| <= |init| && SetEntry(es, k, v) == init + [last]
    ensures es == init && last == Entry(k, v)
  {
    assert |SetEntry(es, k, v)| == |init| + 1;
    assert (es + [Entry(k, v)])[..|es|] == es;
    assert (init + [last])[..|init|] == init;
    assert (init + [last])[|init|] == last;
  }

  lemma {:induction false} PlainIsAssignable(es: seq<Entry>)
    requires ValidKeys(es) && Plain(es)
    ensures Assignable(es)
    decreases es, 0
  {
    forall i | 0 <= i < |es| ensures ValidEntry(es[i]) && AssignableEntry(es[i]) {
      assert ValidEntry(es[i]);
      PlainEntryIsAssignable(es[i]);
    }
  }

  lemma {:induction false} PlainEntryIsAssignable(e: Entry)
    requires ValidEntry(e) && PlainEntry(e)
    ensures AssignableEntry(e)
    decreases e, 1
  {
    if e.val.Table? { PlainIsAssignable(e.val.entries); }
  }

  // No value at any depth is an integer.
  predicate NoIntegers(es: seq<Entry>) {
    forall i :: 0 <= i < |es| ==> NoIntegerIn(es[i])
  }

  predicate NoIntegerIn(e: Entry) {
    !e.val.Int? && (e.val.Table? ==> NoIntegers(e.val.entries))
  }

  lemma {:induction false} NoIntegersAreFloats(es: seq<Entry>)
    requires NoIntegers(es)
    ensures AsFloats(es) == es
    decreases es, 0
  {
    if es != [] {
      hide NoIntegerIn, AsFloat;
      var init, last := es[..|es| - 1], es[|es| - 1];
      assert NoIntegerIn(last) && es == init + [last];
      NoIntegersAreFloats(init);
      NoIntegerIsFloat(last);
    }
  }

  lemma {:induction false} NoIntegerIsFloat(e: Entry)
    requires NoIntegerIn(e)
    ensures AsFloat(e) == e
    decreases e, 1
  {
    if e.val.Table? { NoIntegersAreFloats(e.val.entries); }
  }

  lemma SetKeepsNoIntegers(es: seq<Entry>, k: Value, v: Value)
    requires NoIntegers(es) && NoIntegerIn(Entry(k, v))
    ensures NoIntegers(SetEntry(es, k, v))
  {
    hide NoIntegerIn;
  }

  // What comes back never holds an integer value.
  lemma {:induction false} CanonHasNoIntegers(es: seq<Entry>)
    requires ValidKeys(es)
    ensures NoIntegers(Canon(es))
    decreases es, 0
  {
    if es != [] {
      hide SetEntry, KeyBack, ValueBack, NoIntegerIn;
      var init, last := es[..|es| - 1], es[|es| - 1];
      assert ValidEntry(last);
      CanonHasNoIntegers(init);
      ValueBackIsNoInteger(last);
      SetKeepsNoIntegers(Canon(init), KeyBack(last.key), ValueBack(last));
    }
  }

  lemma {:induction false} ValueBackIsNoInteger(e: Entry)
    requires ValidEntry(e)
    ensures NoIntegerIn(Entry(KeyBack(e.key), ValueBack(e)))
    decreases e, 1
  {
    if e.val.Table? { CanonHasNoIntegers(e.val.entries); }
  }

  // Writing a table and reading it back gives a table that Lua's == cannot tell from it
  // exactly when it is plain, nested at most 127 deep and there is room.
  lemma RoundTripIsExact(es: seq<Entry>, room: nat)
    requires WellFormed(es) && ValidKeys(es)
    ensures Rebuild(Flatten(es), room) == Running(Machine([Table(AsFloats(es))], [1])) <==>
            Plain(es) && Depth(es) < MAX_OPEN && 1 + Slots(es) <= room
  {
    hide Rebuild, Flatten, Canon, AsFloats, Plain, Assignable, WellFormed, Slots, Depth;
    RebuildsTheTable(es, room);
    if Assignable(es) {
      CanonIsSameExactly(es);
    } else if Plain(es) {
      PlainIsAssignable(es);
    }
  }

  // It gives the very same table exactly when, besides, no value is an integer.
  lemma RoundTripKeepsFloatsOnly(es: seq<Entry>, room: nat)
    requires WellFormed(es) && ValidKeys(es)
    ensures Rebuild(Flatten(es), room) == Running(Machine([Table(es)], [1])) <==>
            Plain(es) && NoIntegers(es) && Depth(es) < MAX_OPEN && 1 + Slots(es) <= room
  {
    hide Rebuild, Flatten, Canon, AsFloats, Plain, Assignable, WellFormed, Slots, Depth, NoIntegers;
    RoundTripIsExact(es, room);
    RebuildsTheTable(es, room);
    CanonHasNoIntegers(es);
    if NoIntegers(es) {
      NoIntegersAreFloats(es);
    }
  }

  // ---------- What each entry comes back as ----------

  predicate PlainKeys(es: seq<Entry>) {
    forall i :: 0 <= i < |es| ==> PlainKey(es[i].key)
  }

  lemma KeyBackPlain(k: Value)
    requires PlainKey(k)
    ensures ValidKey(k) && KeyBack(k) == k
  {
  }

  // With plain keys each entry comes back under its own key.
  lemma {:induction false} CanonLookup(es: seq<Entry>, k: Value)
    requires ValidKeys(es) && Distinct(es) && PlainKeys(es)
    ensures Distinct(Canon(es))
    ensures var i := Find(es, k);
            if i < |es| then ValidEntry(es[i]) && Lookup(Canon(es), k) == ValueBack(es[i])
            else Lookup(Canon(es), k) == Nil
    decreases |es|
  {
    hide KeyBack, ValueBack, SetEntry, ValidEntry, Lookup, PlainKey;
    if es == [] {
      LookupNowhere([], k);
    } else {
      var init, last := es[..|es| - 1], es[|es| - 1];
      LastIsValid(es);
      CanonLookup(init, k);
      FindSnoc(es, k);
      KeyBackPlain(last.key);
      SetThenLookup(Canon(init), KeyBack(last.key), ValueBack(last), k);
    }
  }

  lemma LastIsValid(es: seq<Entry>)
    requires ValidKeys(es) && es != []
    ensures ValidEntry(es[|es| - 1]) && ValidKey(es[|es| - 1].key) && ValidKeys(es[..|es| - 1])
  {
    assert ValidEntry(es[|es| - 1]);
  }

  lemma FindSnoc(es: seq<Entry>, k: Value)
    requires es != [] && Distinct(es)
    ensures var init := es[..|es| - 1];
            && (es[|es| - 1].key == k <==> Find(es, k) == |es| - 1)
            && (es[|es| - 1].key == k ==> Find(init, k) == |init|)
            && (es[|es| - 1].key != k ==>
                  if Find(init, k) < |init| then Find(es, k) == Find(init, k) else Find(es, k) == |es|)
  {
  }

  // What a scalar comes back as: booleans and values of other types as texts, an empty text
  // not at all, numbers as floats and those without an integer value as zero.
  lemma ScalarComesBackAs(es: seq<Entry>, i: nat)
    requires ValidKeys(es) && WellFormed(es) && PlainKeys(es) && i < |es|
    ensures var back := Lookup(Canon(es), es[i].key);
            match es[i].val
            case Bool(b) => back == Text(if b then "true" else "false")
            case Other(name) => back == Text("[[[" + name + "]]]")
            case Int(n) => INT_MIN <= n <= INT_MAX ==> back == Flt(n as real)
            case Flt(x) => !Integral(x) ==> back == Flt(0.0)
            case Text(s) => back == if CString(s) == "" then Nil else Text(CString(s))
            case Table(sub) => ValidKeys(sub) && back == Table(Canon(sub))
            case Nil => false
  {
    hide Canon;
    FindAt(es, i);
    CanonLookup(es, es[i].key);
    assert WellFormedEntry(es[i]);
  }
}
