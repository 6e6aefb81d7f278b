/** The flat record stream (ztable) a nested table is written to. */
module RecordStream {
  import opened CStrings
  import opened LuaValues

  datatype Key = NoKey | IntKey(n: int) | TextKey(s: string) | Terminator

  datatype Val = NoVal | Null | IntVal(n: int) | TextVal(s: string) | TableVal

  datatype Record = Record(key: Key, val: Val)

  const INT_MIN := -0x8000_0000
  const INT_MAX := 0x7FFF_FFFF

  // Conversion of a 64-bit integer to a C int.
  function ToInt(n: int): (r: int)
    ensures INT_MIN <= r <= INT_MAX && (n - r) % 0x1_0000_0000 == 0
    ensures INT_MIN <= n <= INT_MAX ==> r == n
  {
    var m := n % 0x1_0000_0000;
    if m > INT_MAX then m - 0x1_0000_0000 else m
  }

  // lua_tointeger of a number: a float without an integer value gives zero.
  function ToInteger(v: Value): (n: Integer)
    requires IsNumber(v)
  {
    match v
    case Int(n) => n
    case Flt(x) => if Integral(x) then x.Floor else 0
  }

  function KeyRecord(k: Value): Key
    requires ValidKey(k)
  {
    if IsNumber(k) then IntKey(ToInt(ToInteger(k) - 1)) else TextKey(CString(k.s))
  }

  // What a value that is not a table is written as.
  function ScalarRecord(v: Value): Val
    requires !v.Table?
  {
    match v
    case Int(n) => IntVal(ToInt(n))
    case Flt(_) => IntVal(ToInt(ToInteger(v)))
    case Text(s) => TextVal(CString(s))
    case Bool(b) => TextVal(if b then "true" else "false")
    case Other(name) => TextVal("[[[" + name + "]]]")
    case Nil => TextVal("[[[nil]]]")
  }

  const CLOSE := Record(Terminator, Null)

  // Every key at every depth is a number or a string.
  predicate ValidKeys(es: seq<Entry>) {
    forall i :: 0 <= i < |es| ==> ValidEntry(es[i])
  }

  predicate ValidEntry(e: Entry) {
    ValidKey(e.key) && (e.val.Table? ==> ValidKeys(e.val.entries))
  }

  function FlattenEntry(e: Entry): seq<Record>
    requires ValidEntry(e)
  {
    if e.val.Table? then [Record(KeyRecord(e.key), TableVal)] + Flatten(e.val.entries) + [CLOSE]
    else [Record(KeyRecord(e.key), ScalarRecord(e.val))]
  }

  function Flatten(es: seq<Entry>): seq<Record>
    requires ValidKeys(es)
  {
    if es == [] then [] else Flatten(es[..|es| - 1]) + FlattenEntry(es[|es| - 1])
  }

  lemma FlattenNone(es: seq<Entry>)
    ensures ValidKeys(es[..0]) && Flatten(es[..0]) == []
  {
  }

  lemma FlattenSnoc(es: seq<Entry>, i: nat)
    requires i < |es| && ValidKeys(es[..i]) && ValidEntry(es[i])
    ensures ValidKeys(es[..i + 1]) && Flatten(es[..i + 1]) == Flatten(es[..i]) + FlattenEntry(es[i])
  {
    assert es[..i + 1][..i] == es[..i] && es[..i + 1][i] == es[i];
  }

  lemma {:induction false} FlattenConcat(a: seq<Entry>, b: seq<Entry>)
    requires ValidKeys(a) && ValidKeys(b)
    ensures ValidKeys(a + b) && Flatten(a + b) == Flatten(a) + Flatten(b)
    decreases |b|
  {
    hide FlattenEntry, ValidEntry;
    if b == [] {
      assert a + b == a;
    } else {
      assert (a + b)[..|a + b| - 1] == a + b[..|b| - 1];
      FlattenConcat(a, b[..|b| - 1]);
    }
  }

  lemma FlattenCons(es: seq<Entry>)
    requires ValidKeys(es) && es != []
    ensures ValidEntry(es[0]) && ValidKeys(es[1..]) && Flatten(es) == FlattenEntry(es[0]) + Flatten(es[1..])
  {
    assert ValidEntry(es[0]);
    forall j | 0 <= j < |es| - 1 ensures ValidEntry(es[1..][j]) { assert es[1..][j] == es[j + 1]; }
    assert [es[0]] + es[1..] == es && [es[0]][..0] == [];
    FlattenConcat([es[0]], es[1..]);
    assert Flatten([es[0]]) == FlattenEntry(es[0]);
  }

  // The stream being written: finished records and the one under construction.
  class ZTable {
    var records: seq<Record>
    var key: Key
    var val: Val

    constructor ()
      ensures records == [] && key == NoKey && val == NoVal
    {
      records, key, val := [], NoKey, NoVal;
    }

    method AddKey(k: Key)
      modifies this`key
      ensures key == k
    {
      key := k;
    }

    method AddValue(v: Val)
      modifies this`val
      ensures val == v
    {
      val := v;
    }

    method Finalize()
      modifies this
      ensures records == old(records) + [Record(old(key), old(val))] && key == NoKey && val == NoVal
    {
      records := records + [Record(key, val)];
      key, val := NoKey, NoVal;
    }

    method Descend()
      modifies this
      ensures records == old(records) + [Record(old(key), TableVal)] && key == NoKey && val == NoVal
    {
      val := TableVal;
      Finalize();
    }

    method Ascend()
      modifies this
      ensures records == old(records) + [CLOSE] && key == NoKey && val == NoVal
    {
      key, val := Terminator, Null;
      Finalize();
    }
  }
}
