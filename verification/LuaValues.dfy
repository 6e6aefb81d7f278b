/** Lua values, tables and the explicit Lua stack that src/lua.c works on.

    A table is the sequence of its entries in the order lua_next visits them.  Values are
    never shared between two places of the stack by the code modelled here, so a table is
    a value and lua_settable replaces the table in its stack slot. */
module LuaValues {

  // A lua_Integer.
  type Integer = n: int | -0x8000_0000_0000_0000 <= n < 0x8000_0000_0000_0000

  // Numbers are integers or floats; 1 and 1.0 are equal to Lua but are different values to
  // lua_next.
  datatype Value =
    | Nil
    | Int(n: Integer)
    | Flt(x: real)
    | Text(s: string)
    | Bool(b: bool)
    | Other(typename: string)
    | Table(entries: seq<Entry>)

  datatype Entry = Entry(key: Value, val: Value)

  predicate IsNumber(v: Value) { v.Int? || v.Flt? }

  predicate ValidKey(k: Value) { IsNumber(k) || k.Text? }

  // A float that has an integer value.
  predicate Integral(x: real) {
    x.Floor as real == x && -0x8000_0000_0000_0000 <= x.Floor < 0x8000_0000_0000_0000
  }

  // The key an assignment stores: a float with an integer value becomes that integer.
  function AsKey(k: Value): Value {
    if k.Flt? && Integral(k.x) then Int(k.x.Floor) else k
  }

  // The position of key k, or the number of entries if it is absent.
  function Find(es: seq<Entry>, k: Value): (i: nat)
    ensures i <= |es|
    ensures i < |es| ==> es[i].key == k
    ensures forall j :: 0 <= j < i ==> es[j].key != k
  {
    if es == [] then 0 else if es[0].key == k then 0 else 1 + Find(es[1..], k)
  }

  // t[k]
  function Lookup(es: seq<Entry>, k: Value): Value {
    var i := Find(es, k);
    if i < |es| then es[i].val else Nil
  }

  // t[k] = v; assigning nil removes the entry.
  function SetEntry(es: seq<Entry>, k: Value, v: Value): seq<Entry> {
    var i := Find(es, k);
    if v.Nil? then (if i < |es| then es[..i] + es[i + 1..] else es)
    else if i < |es| then es[i := Entry(k, v)]
    else es + [Entry(k, v)]
  }

  predicate Distinct(es: seq<Entry>) {
    forall i, j :: 0 <= i < j < |es| ==> es[i].key != es[j].key
  }

  // A table as Lua keeps it: no key twice, every key in the form assignments store, no nil,
  // and so on inside.
  predicate WellFormed(es: seq<Entry>) {
    Distinct(es) && forall i :: 0 <= i < |es| ==> WellFormedEntry(es[i])
  }

  predicate WellFormedEntry(e: Entry) {
    !e.key.Nil? && AsKey(e.key) == e.key && !e.val.Nil? && (e.val.Table? ==> WellFormed(e.val.entries))
  }

  lemma FindAt(es: seq<Entry>, i: nat)
    requires Distinct(es) && i < |es|
    ensures Find(es, es[i].key) == i
  {
  }

  // The laws of assignment.
  lemma SetThenLookup(es: seq<Entry>, k: Value, v: Value, x: Value)
    requires Distinct(es)
    ensures Distinct(SetEntry(es, k, v))
    ensures Lookup(SetEntry(es, k, v), x) == if x == k then v else Lookup(es, x)
  {
    hide Distinct, Lookup;
    var i := Find(es, k);
    if i == |es| {
      LookupAbsent(es, k);
    }
    if v.Nil? {
      if i < |es| { RemoveThenLookup(es, i, x); }
    } else if i < |es| {
      UpdateThenLookup(es, i, v, x);
    } else {
      AppendThenLookup(es, k, v, x);
    }
  }

  lemma LookupAbsent(es: seq<Entry>, k: Value)
    requires Find(es, k) == |es|
    ensures Lookup(es, k) == Nil
  {
  }

  // Where a key is, and where it is not.
  lemma LookupAt(es: seq<Entry>, i: nat)
    requires Distinct(es) && i < |es|
    ensures Lookup(es, es[i].key) == es[i].val
  {
    FindAt(es, i);
  }

  lemma LookupNowhere(es: seq<Entry>, x: Value)
    requires forall j :: 0 <= j < |es| ==> es[j].key != x
    ensures Lookup(es, x) == Nil
  {
    var j := Find(es, x);
  }

  lemma UpdateThenLookup(es: seq<Entry>, i: nat, v: Value, x: Value)
    requires Distinct(es) && i < |es|
    ensures var es' := es[i := Entry(es[i].key, v)];
            Distinct(es') && Lookup(es', x) == if x == es[i].key then v else Lookup(es, x)
  {
    hide Find, Lookup;
    var es' := es[i := Entry(es[i].key, v)];
    assert forall j :: 0 <= j < |es| ==> es'[j].key == es[j].key;
    var j := Find(es, x);
    if j < |es| {
      LookupAt(es, j);
      LookupAt(es', j);
    } else {
      LookupNowhere(es, x);
      LookupNowhere(es', x);
    }
  }

  lemma AppendThenLookup(es: seq<Entry>, k: Value, v: Value, x: Value)
    requires Distinct(es) && Find(es, k) == |es|
    ensures var es' := es + [Entry(k, v)];
            Distinct(es') && Lookup(es', x) == if x == k then v else Lookup(es, x)
  {
    hide Find, Lookup;
    var es' := es + [Entry(k, v)];
    assert es'[|es|] == Entry(k, v);
    var j := Find(es, x);
    if x == k {
      LookupAt(es', |es|);
    } else if j < |es| {
      assert es'[j] == es[j];
      LookupAt(es, j);
      LookupAt(es', j);
    } else {
      LookupNowhere(es, x);
      LookupNowhere(es', x);
    }
  }

  lemma RemoveThenLookup(es: seq<Entry>, i: nat, x: Value)
    requires Distinct(es) && i < |es|
    ensures var es' := es[..i] + es[i + 1..];
            Distinct(es') && Lookup(es', x) == if x == es[i].key then Nil else Lookup(es, x)
  {
    hide Find, Lookup;
    var es' := es[..i] + es[i + 1..];
    RemoveKeepsDistinct(es, i);
    var j := Find(es, x);
    if j < |es| && j != i {
      var p := if i < j then j - 1 else j;
      assert es'[p] == es[j];
      LookupAt(es, j);
      LookupAt(es', p);
    } else {
      forall p | 0 <= p < |es'| ensures es'[p].key != x {
        assert es'[p] == es[if p < i then p else p + 1];
      }
      LookupNowhere(es', x);
      if j == |es| { LookupNowhere(es, x); }
    }
  }

  lemma RemoveKeepsDistinct(es: seq<Entry>, i: nat)
    requires Distinct(es) && i < |es|
    ensures Distinct(es[..i] + es[i + 1..])
  {
  }

  // The Lua stack.  Positions count from 1 at the bottom.
  class LuaState {
    var stack: seq<Value>

    ghost predicate IsTable(index: int)
      reads this
    {
      1 <= index <= |stack| && stack[index - 1].Table?
    }

    constructor ()
      ensures stack == []
    {
      stack := [];
    }

    method Push(v: Value)
      modifies this
      ensures stack == old(stack) + [v]
    {
      stack := stack + [v];
    }

    method Pop(n: nat)
      requires n <= |stack|
      modifies this
      ensures stack == old(stack)[..|old(stack)| - n]
    {
      stack := stack[..|stack| - n];
    }

    // Moves the top element down to position index.
    method Insert(index: nat)
      requires 1 <= index <= |stack|
      modifies this
      ensures stack == old(stack)[..index - 1] + [old(stack)[|old(stack)| - 1]]
                       + old(stack)[index - 1..|old(stack)| - 1]
    {
      stack := stack[..index - 1] + [stack[|stack| - 1]] + stack[index - 1..|stack| - 1];
    }

    // Pops a value and, below it, a key, and assigns them in the table at index.  A nil key
    // is a Lua error.
    method SetTable(index: nat)
      requires IsTable(index) && index <= |stack| - 2 && !stack[|stack| - 2].Nil?
      modifies this
      ensures stack == SetTop(old(stack), index)
    {
      stack := SetTop(stack, index);
    }

    // Pops a key and pushes the entry after it, if there is one; nil stands before the
    // first entry.  A key that is not in the table, as the very value stored there, is a Lua
    // error.
    method Next(index: nat) returns (r: Advance)
      requires IsTable(index) && index < |stack|
      modifies this
      ensures var es, k := old(stack)[index - 1].entries, old(stack)[|old(stack)| - 1];
              r == After(es, k)
      ensures !r.InvalidKey? ==>
                stack == old(stack)[..|old(stack)| - 1] + if r.More? then [r.entry.key, r.entry.val] else []
    {
      r := After(stack[index - 1].entries, stack[|stack| - 1]);
      stack := stack[..|stack| - 1] + if r.More? then [r.entry.key, r.entry.val] else [];
    }
  }

  // What lua_next finds after a key.
  datatype Advance = More(entry: Entry) | End | InvalidKey

  function After(es: seq<Entry>, k: Value): Advance {
    var i := if k.Nil? then 0 else Find(es, k) + 1;
    if i < |es| then More(es[i]) else if i == |es| then End else InvalidKey
  }

  // The stack while entry i of the table on top of base is being visited; past the last
  // entry the visit has left nothing behind.
  function Visiting(base: seq<Value>, es: seq<Entry>, i: nat): seq<Value> {
    base + if i < |es| then [es[i].key, es[i].val] else []
  }

  // Starts visiting the table on top of the stack: lua_pushnil, lua_next.
  method FirstEntry(L: LuaState, index: nat) returns (more: bool)
    requires index == |L.stack| && L.IsTable(index)
    modifies L
    ensures var es := old(L.stack)[index - 1].entries;
            more == (0 < |es|) && L.stack == Visiting(old(L.stack), es, 0)
  {
    L.Push(Nil);
    var r := L.Next(index);
    more := r.More?;
  }

  // Goes from entry i to the next: lua_pop of the value, lua_next.
  method NextEntry(L: LuaState, index: nat, ghost base: seq<Value>, ghost i: nat) returns (more: bool)
    requires index == |base| > 0 && base[index - 1].Table? && Distinct(base[index - 1].entries)
    requires i < |base[index - 1].entries| && !base[index - 1].entries[i].key.Nil?
    requires L.stack == Visiting(base, base[index - 1].entries, i)
    modifies L
    ensures var es := base[index - 1].entries;
            more == (i + 1 < |es|) && L.stack == Visiting(base, es, i + 1)
  {
    ghost var es := base[index - 1].entries;
    L.Pop(1);
    assert L.stack == base + [es[i].key];
    FindAt(es, i);
    var r := L.Next(index);
    more := r.More?;
  }

  function SetTop(stack: seq<Value>, index: nat): seq<Value>
    requires 1 <= index <= |stack| - 2 && stack[index - 1].Table?
  {
    var n := |stack|;
    stack[..n - 2][index - 1 := Table(SetEntry(stack[index - 1].entries, AsKey(stack[n - 2]), stack[n - 1]))]
  }
}
