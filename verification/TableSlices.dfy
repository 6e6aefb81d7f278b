/** The depth-counting walkers of src/loader.c that cut one table out of a record stream. */
module TableSlices {
  import opened CStrings
  import opened LuaValues
  import opened Options
  import opened RecordStream

  // ---------- loader_check_eot and copy_iterator ----------

  function DepthAfter(depth: nat, r: Record): nat {
    if depth > 0 && r.key == Terminator then depth - 1
    else if depth > 0 && r.val == TableVal then depth + 1
    else depth
  }

  // Copies one record to the table being written.  A value that is absent stays absent.
  method CopyRecord(nt: ZTable, r: Record)
    requires nt.key == NoKey && nt.val == NoVal
    modifies nt
    ensures nt.records == old(nt.records) + [Copied(r)] && nt.key == NoKey && nt.val == NoVal
  {
    if r.key == Terminator {
      nt.Ascend();
      return;
    }
    nt.AddKey(r.key);
    if r.val == TableVal {
      nt.Descend();
      return;
    }
    if r.val != Null {
      nt.AddValue(r.val);
    }
    nt.Finalize();
  }

  function Copied(r: Record): Record {
    if r.key == Terminator then CLOSE else if r.val == Null then r.(val := NoVal) else r
  }

  // The records up to the terminator that closes depth levels.
  function Slice(rs: seq<Record>, depth: nat): seq<Record> {
    if rs == [] then []
    else
      var d := DepthAfter(depth, rs[0]);
      if d == 0 then [] else [Copied(rs[0])] + Slice(rs[1..], d)
  }

  // loader_shallow_copy: copies from position start up to the terminator of the table there.
  method ShallowCopy(t: seq<Record>, start: nat) returns (nt: ZTable)
    ensures fresh(nt) && nt.records == if start > |t| then [] else Slice(t[start..], 1)
  {
    nt := new ZTable();
    if start > |t| {
      return;
    }
    var depth: nat, i := 1, start;
    while i < |t|
      invariant start <= i <= |t| && fresh(nt) && nt.key == NoKey && nt.val == NoVal
      invariant Slice(t[start..], 1) == nt.records + Slice(t[i..], depth)
    {
      assert t[i..][1..] == t[i + 1..];
      depth := DepthAfter(depth, t[i]);
      if depth == 0 {
        break;
      }
      CopyRecord(nt, t[i]);
      i := i + 1;
    }
  }

  // At any depth a flattened table is copied whole and leaves the depth as it was.
  lemma {:induction false} SliceTable(es: seq<Entry>, rest: seq<Record>, depth: nat)
    requires ValidKeys(es) && depth > 0
    ensures Slice(Flatten(es) + rest, depth) == Flatten(es) + Slice(rest, depth)
    decreases es, 1
  {
    hide Slice, FlattenEntry;
    if es == [] {
      assert [] + rest == rest;
    } else {
      var init, last := es[..|es| - 1], es[|es| - 1];
      assert ValidEntry(last);
      SliceTable(init, FlattenEntry(last) + rest, depth);
      SliceEntry(last, rest, depth);
      assert Flatten(es) + rest == Flatten(init) + (FlattenEntry(last) + rest);
    }
  }

  lemma {:induction false} SliceEntry(e: Entry, rest: seq<Record>, depth: nat)
    requires ValidEntry(e) && depth > 0
    ensures Slice(FlattenEntry(e) + rest, depth) == FlattenEntry(e) + Slice(rest, depth)
    decreases e, 0
  {
    hide FlattenEntry, Flatten, KeyRecord, ScalarRecord;
    EntryFirst(e, rest);
    EntryFirst(e, Slice(rest, depth));
    var first := (FlattenEntry(e) + rest)[0];
    if e.val.Table? {
      SliceTable(e.val.entries, [CLOSE] + rest, depth + 1);
      assert Slice([CLOSE] + rest, depth + 1) == [CLOSE] + Slice(rest, depth);
    }
    assert first == (FlattenEntry(e) + Slice(rest, depth))[0];
  }

  // The records of an entry, one at a time.
  lemma EntryFirst(e: Entry, rest: seq<Record>)
    requires ValidEntry(e)
    ensures var all := FlattenEntry(e) + rest;
            && all != []
            && all[0] == Record(KeyRecord(e.key), if e.val.Table? then TableVal else ScalarRecord(e.val))
            && all[1..] == (if e.val.Table? then Flatten(e.val.entries) + ([CLOSE] + rest) else rest)
            && all == [all[0]] + all[1..]
            && all[0].key != Terminator && all[0].val != Null && (all[0].val == TableVal <==> e.val.Table?)
    ensures ([CLOSE] + rest)[1..] == rest && ([CLOSE] + rest)[0] == CLOSE
  {
    hide Flatten, CString, ToInt, ToInteger;
  }

  // Copying from just after a table's opening record gives exactly that table's own balanced
  // records, whatever surrounds it.
  lemma ShallowCopyIsTheTable(before: seq<Record>, es: seq<Entry>, after: seq<Record>)
    requires ValidKeys(es)
    ensures var t := before + Flatten(es) + [CLOSE] + after;
            Slice(t[|before|..], 1) == Flatten(es)
  {
    var t := before + Flatten(es) + [CLOSE] + after;
    assert t[|before|..] == Flatten(es) + ([CLOSE] + after);
    SliceTable(es, [CLOSE] + after, 1);
  }

  // ---------- Lookup by key at the top of a stream ----------

  // The position of the top-level record with the text key name, or the length.  This
  // stands for the hash lookup lt_geti.
  function TopIndex(rs: seq<Record>, name: string, depth: nat): (i: nat)
    ensures i <= |rs|
  {
    if rs == [] then 0
    else if depth == 0 && rs[0].key == TextKey(name) then 0
    else 1 + TopIndex(rs[1..], name,
                      if rs[0].key == Terminator && depth > 0 then depth - 1
                      else if rs[0].val == TableVal then depth + 1 else depth)
  }

  // loader_get_char_value
  function TopText(rs: seq<Record>, name: string): Option<string> {
    var i := TopIndex(rs, name, 0);
    if i < |rs| && rs[i].val.TextVal? && rs[i].val.s != "" then Some(rs[i].val.s) else None
  }

  function KeyIndex(es: seq<Entry>, name: string): (i: nat)
    requires ValidKeys(es)
    ensures i <= |es|
    ensures i < |es| ==> ValidEntry(es[i]) && KeyRecord(es[i].key) == TextKey(name)
    ensures forall j :: 0 <= j < i ==> ValidEntry(es[j]) && KeyRecord(es[j].key) != TextKey(name)
    decreases |es|
  {
    if es == [] then 0
    else
      assert ValidEntry(es[0]);
      if KeyRecord(es[0].key) == TextKey(name) then 0
      else
        assert forall j :: 0 <= j < |es| - 1 ==> es[1..][j] == es[j + 1];
        1 + KeyIndex(es[1..], name)
  }

  // The text a table holds under a name, as C reads it back.
  function FieldText(es: seq<Entry>, name: string): Option<string>
    requires ValidKeys(es)
  {
    var i := KeyIndex(es, name);
    if i == |es| || es[i].val.Table? then None
    else
      match ScalarRecord(es[i].val)
      case TextVal(s) => if s != "" then Some(s) else None
      case _ => None
  }

  // The field is the text of the entry under that name, up to its first NUL and unless it is
  // empty.
  lemma FieldTextIs(es: seq<Entry>, i: nat)
    requires ValidKeys(es) && i < |es| && es[i].key.Text? && '\0' !in es[i].key.s
    requires forall j :: 0 <= j < i ==> ValidEntry(es[j]) && KeyRecord(es[j].key) != TextKey(es[i].key.s)
    ensures var field := FieldText(es, es[i].key.s);
            match es[i].val
            case Text(s) => field == if CString(s) == "" then None else Some(CString(s))
            case Bool(b) => field == Some(if b then "true" else "false")
            case Table(_) => field == None
            case Int(_) => field == None
            case Flt(_) => field == None
            case _ => true
  {
    assert ValidEntry(es[i]) && KeyRecord(es[i].key) == TextKey(es[i].key.s);
    assert KeyIndex(es, es[i].key.s) == i;
  }

  // Nothing inside a nested table is found.
  lemma {:induction false} SkipTable(es: seq<Entry>, rest: seq<Record>, name: string, depth: nat)
    requires ValidKeys(es) && depth > 0
    ensures TopIndex(Flatten(es) + rest, name, depth) == |Flatten(es)| + TopIndex(rest, name, depth)
    decreases es, 1
  {
    hide TopIndex, FlattenEntry;
    if es == [] {
      assert [] + rest == rest;
    } else {
      var init, last := es[..|es| - 1], es[|es| - 1];
      assert ValidEntry(last);
      SkipTable(init, FlattenEntry(last) + rest, name, depth);
      SkipEntry(last, rest, name, depth);
      assert Flatten(es) + rest == Flatten(init) + (FlattenEntry(last) + rest);
    }
  }

  lemma {:induction false} SkipEntry(e: Entry, rest: seq<Record>, name: string, depth: nat)
    requires ValidEntry(e) && (depth > 0 || KeyRecord(e.key) != TextKey(name))
    ensures TopIndex(FlattenEntry(e) + rest, name, depth) == |FlattenEntry(e)| + TopIndex(rest, name, depth)
    decreases e, 0
  {
    hide FlattenEntry, Flatten, KeyRecord, ScalarRecord;
    EntryFirst(e, rest);
    assert FlattenEntry(e) + [] == FlattenEntry(e);
    EntryFirst(e, []);
    if e.val.Table? {
      SkipTable(e.val.entries, [CLOSE] + rest, name, depth + 1);
      assert TopIndex([CLOSE] + rest, name, depth + 1) == 1 + TopIndex(rest, name, depth);
    }
  }

  lemma {:induction false} TopIndexFinds(es: seq<Entry>, rest: seq<Record>, name: string)
    requires ValidKeys(es)
    ensures var i := KeyIndex(es, name);
            && ValidKeys(es[..i])
            && TopIndex(Flatten(es) + rest, name, 0)
               == |Flatten(es[..i])| + if i < |es| then 0 else TopIndex(rest, name, 0)
    decreases |es|
  {
    if es == [] {
      assert [] + rest == rest;
    } else {
      FlattenCons(es);
      assert Flatten(es) + rest == FlattenEntry(es[0]) + (Flatten(es[1..]) + rest);
      if KeyRecord(es[0].key) != TextKey(name) {
        TopIndexFinds(es[1..], rest, name);
        SkipEntry(es[0], Flatten(es[1..]) + rest, name, 0);
        var i := KeyIndex(es[1..], name);
        PrefixCons(es, i);
      }
    }
  }

  lemma PrefixCons(es: seq<Entry>, i: nat)
    requires ValidKeys(es) && es != [] && i < |es| && ValidKeys(es[1..][..i])
    ensures ValidEntry(es[0]) && ValidKeys(es[..i + 1])
    ensures Flatten(es[..i + 1]) == FlattenEntry(es[0]) + Flatten(es[1..][..i])
  {
    var prefix := es[..i + 1];
    forall j | 0 <= j < |prefix| ensures ValidEntry(prefix[j]) { assert prefix[j] == es[j]; }
    assert prefix[1..] == es[1..][..i];
    FlattenCons(prefix);
  }

  // The flattened table splits around the entry found.
  lemma SplitAt(es: seq<Entry>, i: nat)
    requires ValidKeys(es) && i < |es|
    ensures ValidEntry(es[i]) && ValidKeys(es[..i]) && ValidKeys(es[i + 1..])
    ensures Flatten(es) == Flatten(es[..i]) + FlattenEntry(es[i]) + Flatten(es[i + 1..])
  {
    assert ValidEntry(es[i]);
    assert ValidKeys(es[..i]) by { assert forall j :: 0 <= j < i ==> es[..i][j] == es[j]; }
    var tail := es[i + 1..];
    forall j | 0 <= j < |tail| ensures ValidEntry(tail[j]) { assert tail[j] == es[j + i + 1]; }
    assert es == es[..i + 1] + es[i + 1..];
    FlattenSnoc(es, i);
    FlattenConcat(es[..i + 1], es[i + 1..]);
  }

  lemma TopTextIsTheField(es: seq<Entry>, name: string)
    requires ValidKeys(es)
    ensures TopText(Flatten(es), name) == FieldText(es, name)
  {
    var i := KeyIndex(es, name);
    TopIndexFinds(es, [], name);
    assert Flatten(es) + [] == Flatten(es);
    if i < |es| {
      SplitAt(es, i);
    } else {
      assert es[..i] == es;
    }
  }

  // Where the table stored under a top-level key lies in the stream.
  lemma TableUnderKey(es: seq<Entry>, name: string)
    requires ValidKeys(es)
    ensures var t := Flatten(es);
            var i, k := TopIndex(t, name, 0), KeyIndex(es, name);
            && (i < |t| && t[i].val == TableVal <==> k < |es| && es[k].val.Table?)
            && (k < |es| && es[k].val.Table? ==>
                  && ValidKeys(es[k].val.entries) && ValidKeys(es[k + 1..])
                  && t[i + 1..] == Flatten(es[k].val.entries) + ([CLOSE] + Flatten(es[k + 1..])))
  {
    hide *;
    var t, k := Flatten(es), KeyIndex(es, name);
    TopIndexFinds(es, [], name);
    NothingAtTheEnd(name);
    assert t + [] == t;
    if k < |es| {
      SplitAt(es, k);
      EntryRecords(es[k], Flatten(es[k + 1..]));
      SplitRecords(t, Flatten(es[..k]), FlattenEntry(es[k]), Flatten(es[k + 1..]));
    } else {
      assert es[..k] == es;
    }
  }

  lemma SplitRecords(t: seq<Record>, a: seq<Record>, b: seq<Record>, c: seq<Record>)
    requires t == a + b + c && b != []
    ensures |a| < |t| && t[|a|] == b[0] && t[|a| + 1..] == b[1..] + c
  {
  }

  lemma EntryRecords(e: Entry, after: seq<Record>)
    requires ValidEntry(e)
    ensures FlattenEntry(e) != [] && (FlattenEntry(e)[0].val == TableVal <==> e.val.Table?)
    ensures e.val.Table? ==>
              && ValidKeys(e.val.entries)
              && FlattenEntry(e)[1..] + after == Flatten(e.val.entries) + ([CLOSE] + after)
  {
  }

  lemma NothingAtTheEnd(name: string)
    ensures TopIndex([], name, 0) == 0
  {
  }
}
