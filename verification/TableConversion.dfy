/** lua_to_ztable, lua_count and ztable_to_lua of src/lua.c. */
module TableConversion {
  import opened CStrings
  import opened LuaValues
  import opened RecordStream

  // ---------- Writing a table as records ----------

  // The first entry whose key cannot be written.
  function FirstBadKey(es: seq<Entry>): (i: nat)
    ensures i <= |es|
    ensures i < |es| ==> !ValidKey(es[i].key)
    ensures forall j :: 0 <= j < i ==> ValidKey(es[j].key)
  {
    if es == [] || !ValidKey(es[0].key) then 0 else 1 + FirstBadKey(es[1..])
  }

  // Keys inside nested tables are valid; at the top they may not be.
  predicate ValidBelow(es: seq<Entry>) {
    forall i :: 0 <= i < |es| && es[i].val.Table? ==> ValidKeys(es[i].val.entries)
  }

  lemma ValidKeysBelow(es: seq<Entry>)
    requires ValidKeys(es)
    ensures ValidBelow(es)
  {
    forall i | 0 <= i < |es| && es[i].val.Table? ensures ValidKeys(es[i].val.entries) {
      assert ValidEntry(es[i]);
    }
  }

  lemma EntryReady(es: seq<Entry>, i: nat)
    requires WellFormed(es) && ValidBelow(es) && i < |es|
    ensures WellFormedEntry(es[i]) && (es[i].val.Table? ==> ValidKeys(es[i].val.entries))
    ensures Distinct(es) && !es[i].key.Nil? && es[i].val < Table(es)
    ensures !ValidKey(es[i].key) ==> !ValidKeys(es)
  {
    if ValidKeys(es) { assert ValidEntry(es[i]); }
  }

  // The entries at all depths.
  function EntryCount(es: seq<Entry>): nat {
    if es == [] then 0 else EntryCount(es[..|es| - 1]) + EntryCountAt(es[|es| - 1])
  }

  function EntryCountAt(e: Entry): nat {
    1 + if e.val.Table? then EntryCount(e.val.entries) else 0
  }

  // The nested tables at all depths.
  function TableCount(es: seq<Entry>): nat {
    if es == [] then 0 else TableCount(es[..|es| - 1]) + TableCountAt(es[|es| - 1])
  }

  function TableCountAt(e: Entry): nat {
    if e.val.Table? then 1 + TableCount(e.val.entries) else 0
  }

  // Writes the table on top of the stack, at position index, to t.  A key that is neither a
  // number nor a string stops the conversion and leaves that entry on the stack.
  method LuaToZtable(L: LuaState, index: nat, t: ZTable) returns (ok: bool)
    requires index == |L.stack| && L.IsTable(index)
    requires WellFormed(L.stack[index - 1].entries) && ValidBelow(L.stack[index - 1].entries)
    modifies L, t
    ensures var es := old(L.stack)[index - 1].entries;
            var i := FirstBadKey(es);
            && ok == (i == |es|)
            && ok == ValidKeys(es)
            && ValidKeys(es[..i])
            && t.records == old(t.records) + Flatten(es[..i])
            && L.stack == Visiting(old(L.stack), es, i)
    decreases L.stack[index - 1], 0
  {
    hide ValidBelow, Flatten, FlattenEntry, ValidKeys, ValidEntry, WellFormed, WellFormedEntry;
    ghost var base, es, i := L.stack, L.stack[index - 1].entries, 0;
    FlattenNone(es);
    var more := FirstEntry(L, index);
    while more
      invariant 0 <= i <= FirstBadKey(es) && more == (i < |es|)
      invariant L.stack == Visiting(base, es, i)
      invariant ValidKeys(es[..i]) && t.records == old(t.records) + Flatten(es[..i])
      decreases |es| - i
    {
      EntryReady(es, i);
      var written := WriteEntry(L, index, es[i], t);
      if !written {
        return false;
      }
      FlattenSnoc(es, i);
      more := NextEntry(L, index, base, i);
      i := i + 1;
    }
    assert es[..|es|] == es;
    return true;
  }

  // What a key is stored as: an index shifted by one, a text up to its first NUL.
  ghost predicate KeyStored(k: Value, r: Key) {
    match k
    case Int(n) => INT_MIN < n <= INT_MAX ==> r == IntKey(n - 1)
    case Flt(x) => !Integral(x) ==> r == IntKey(-1)
    case Text(s) => r.TextKey? && UpToNul(s, r.s)
    case _ => false
  }

  // What a value that is not a table is stored as.
  ghost predicate ValueStored(v: Value, r: Val) {
    match v
    case Int(n) => INT_MIN <= n <= INT_MAX ==> r == IntVal(n)
    case Flt(x) => if Integral(x) then INT_MIN <= x.Floor <= INT_MAX ==> r == IntVal(x.Floor) else r == IntVal(0)
    case Text(s) => r.TextVal? && UpToNul(s, r.s)
    case Bool(b) => r == TextVal(if b then "true" else "false")
    case Other(name) => r == TextVal("[[[" + name + "]]]")
    case _ => true
  }

  ghost predicate UpToNul(s: string, t: string) {
    t <= s && '\0' !in t && (|t| < |s| ==> s[|t|] == '\0')
  }

  lemma EntryIsStored(e: Entry)
    ensures ValidEntry(e) ==>
              KeyStored(e.key, KeyRecord(e.key)) && (!e.val.Table? ==> ValueStored(e.val, ScalarRecord(e.val)))
  {
  }

  // The words a boolean is stored as, and the places of a type's name.
  lemma WordsStored(name: string)
    ensures ScalarRecord(Bool(true)) == TextVal("true") && ScalarRecord(Bool(false)) == TextVal("false")
    ensures ScalarRecord(Flt(0.5)) == IntVal(0) && ScalarRecord(Other(name)) == TextVal("[[[" + name + "]]]")
  {
    assert (0.5).Floor == 0;
  }

  lemma RecordsOfEntry(e: Entry)
    ensures ValidEntry(e) ==>
              FlattenEntry(e) ==
                if e.val.Table? then [Record(KeyRecord(e.key), TableVal)] + Flatten(e.val.entries) + [CLOSE]
                else [Record(KeyRecord(e.key), ScalarRecord(e.val))]
  {
  }

  // Writes the entry on top of the stack, which belongs to the table at position index.
  method WriteEntry(L: LuaState, index: nat, ghost e: Entry, t: ZTable) returns (ok: bool)
    requires |L.stack| == index + 2 && L.stack[index] == e.key && L.stack[index + 1] == e.val
    requires WellFormedEntry(e) && (e.val.Table? ==> ValidKeys(e.val.entries))
    modifies L, t
    ensures L.stack == old(L.stack) && ok == ValidKey(e.key) && (ok ==> ValidEntry(e))
    ensures t.records == old(t.records) + if ok then FlattenEntry(e) else []
    ensures ok ==> |t.records| > |old(t.records)| && KeyStored(e.key, t.records[|old(t.records)|].key)
    ensures ok && !e.val.Table? ==>
              |t.records| == |old(t.records)| + 1 && ValueStored(e.val, t.records[|old(t.records)|].val)
    ensures ok && e.val.Table? ==>
              t.records[|old(t.records)|].val == TableVal && t.records[|t.records| - 1] == CLOSE
    decreases e.val, 1
  {
    hide ToInt, ToInteger, CString, Distinct, ScalarRecord, FlattenEntry, Flatten, WellFormed, ValidBelow;
    RecordsOfEntry(e);
    EntryIsStored(e);
    var k, v := L.stack[index], L.stack[index + 1];
    if IsNumber(k) {
      t.AddKey(IntKey(ToInt(ToInteger(k) - 1)));
    } else if k.Text? {
      t.AddKey(TextKey(CString(k.s)));
    } else {
      return false;
    }
    if v.Table? {
      t.Descend();
      ValidKeysBelow(v.entries);
      var _ := LuaToZtable(L, index + 2, t);
      assert v.entries[..|v.entries|] == v.entries;
      t.Ascend();
    } else {
      t.AddValue(ScalarRecord(v));
      t.Finalize();
    }
    return true;
  }

  // Counts the entries of the table on top of the stack, at position index.
  method LuaCount(L: LuaState, index: nat) returns (count: nat)
    requires index == |L.stack| && L.IsTable(index) && WellFormed(L.stack[index - 1].entries)
    modifies L
    ensures L.stack == old(L.stack) && count == EntryCount(L.stack[index - 1].entries)
    decreases L.stack[index - 1]
  {
    ghost var base, es, i := L.stack, L.stack[index - 1].entries, 0;
    count := 0;
    var more := FirstEntry(L, index);
    while more
      invariant 0 <= i <= |es| && more == (i < |es|)
      invariant L.stack == Visiting(base, es, i)
      invariant count == EntryCount(es[..i])
      decreases |es| - i
    {
      assert WellFormedEntry(es[i]) && es[i].val < base[index - 1];
      assert es[..i + 1][..i] == es[..i] && es[..i + 1][i] == es[i];
      if L.stack[|L.stack| - 1].Table? {
        var nested := LuaCount(L, index + 2);
        count := count + nested;
      }
      more := NextEntry(L, index, base, i);
      count := count + 1;
      i := i + 1;
    }
    assert es[..|es|] == es;
  }

  // The stream holds one record per entry and one terminator per nested table, and so fits
  // the capacity of twice the count that the callers ask for.
  lemma {:induction false} StreamFitsTwiceTheCount(es: seq<Entry>)
    requires ValidKeys(es)
    ensures |Flatten(es)| == EntryCount(es) + TableCount(es)
    ensures TableCount(es) <= EntryCount(es)
    ensures |Flatten(es)| <= 2 * EntryCount(es)
  {
    if es != [] {
      StreamFitsTwiceTheCount(es[..|es| - 1]);
      EntryFitsTwiceTheCount(es[|es| - 1]);
    }
  }

  lemma {:induction false} EntryFitsTwiceTheCount(e: Entry)
    requires ValidEntry(e)
    ensures |FlattenEntry(e)| == EntryCountAt(e) + TableCountAt(e)
    ensures TableCountAt(e) <= EntryCountAt(e)
  {
    if e.val.Table? { StreamFitsTwiceTheCount(e.val.entries); }
  }
}
