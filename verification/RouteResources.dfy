/** The resource collector of src/filters/filter-lua.c: make_mvc_list over the records of one
    route. */
module RouteResources {
  import opened CStrings
  import opened LuaValues
  import opened Options
  import opened RecordStream
  import opened TableSlices
  import opened Walker

  // A file the route asks for.
  datatype Resource = Resource(file: string, base: string, ext: string)

  const RESERVED: seq<string> := ["model,models", "query,queries", "view,views", "content-type"]
  const DIRS: seq<string> := ["app", "sql", "views"]
  const EXTS: seq<string> := ["lua", "sql", "tpl"]

  const MODEL := 0
  const QUERY := 1
  const VIEW := 2
  const CONTENT_TYPE := 3

  // Whether a is one of the words between the commas of list.
  predicate IsWordOf(list: string, a: string) {
    exists j :: 0 <= j < |Tokens(list, ",")| && Tokens(list, ",")[j].Body() == a
  }

  lemma ReservedWords(a: string)
    ensures IsWordOf("model,models", a) <==> a in {"model", "models"}
    ensures IsWordOf("query,queries", a) <==> a in {"query", "queries"}
    ensures IsWordOf("view,views", a) <==> a in {"view", "views"}
    ensures IsWordOf("content-type", a) <==> a == "content-type"
  {
    hide IsWordOf, Tokens;
    assert "model,models" == "model" + "," + "models";
    TwoWords("model", "models", a);
    assert "query,queries" == "query" + "," + "queries";
    TwoWords("query", "queries", a);
    assert "view,views" == "view" + "," + "views";
    TwoWords("view", "views", a);
    OneWord("content-type", a);
  }

  lemma {:induction false} NoComma(w: string, rest: string)
    requires ',' !in w
    ensures FirstDelimiter(w + rest, ",") == |w| + FirstDelimiter(rest, ",")
  {
    if w == [] {
      assert w + rest == rest;
    } else {
      assert (w + rest)[1..] == w[1..] + rest;
      NoComma(w[1..], rest);
    }
  }

  lemma LastWord(w: string)
    requires ',' !in w && w != []
    ensures Tokens(w, ",") == [Token(w, false)]
  {
    NoComma(w, []);
    assert w + [] == w;
  }

  lemma OneWord(w: string, a: string)
    requires ',' !in w && w != []
    ensures IsWordOf(w, a) <==> a == w
  {
    LastWord(w);
    assert Tokens(w, ",")[0].Body() == w;
  }

  lemma TwoWords(w: string, x: string, a: string)
    requires ',' !in w && ',' !in x && w != [] && x != []
    ensures IsWordOf(w + "," + x, a) <==> a in {w, x}
  {
    var list := w + "," + x;
    NoComma(w, "," + x);
    assert list == w + ("," + x);
    assert list[..|w| + 1] == w + "," && list[|w| + 1..] == x;
    LastWord(x);
    var ts := Tokens(list, ",");
    assert ts == [Token(w + ",", true), Token(x, false)];
    assert ts[0].Body() == w && ts[1].Body() == x;
  }

  method HasWord(list: string, a: string) returns (found: bool)
    ensures found <==> IsWordOf(list, a)
  {
    var tokens := Tokens(list, ",");
    for n := 0 to |tokens|
      invariant forall j :: 0 <= j < n ==> tokens[j].Body() != a
    {
      if tokens[n].Body() == a {
        return true;
      }
    }
    return false;
  }

  method IsReserved(a: string) returns (found: bool)
    ensures found <==> a in {"model", "models", "query", "queries", "view", "views", "content-type"}
  {
    hide IsWordOf;
    ReservedWords(a);
    found := false;
    for i := 0 to |RESERVED|
      invariant found <==> exists k :: 0 <= k < i && IsWordOf(RESERVED[k], a)
    {
      var here := HasWord(RESERVED[i], a);
      found := found || here;
    }
    assert found <==> IsWordOf(RESERVED[0], a) || IsWordOf(RESERVED[1], a)
                      || IsWordOf(RESERVED[2], a) || IsWordOf(RESERVED[3], a);
  }

  // ---------- make_mvc_list ----------

  // Which of the four kinds a key selects; "queries" is reserved but selects nothing.
  function Selects(key: string): Option<nat> {
    if key == "model" || key == "models" then Some(MODEL)
    else if key == "query" then Some(QUERY)
    else if key == "content-type" then Some(CONTENT_TYPE)
    else if key == "view" || key == "views" then Some(VIEW)
    else None
  }

  datatype Kind = NoKind | Integer | Txt | Tbl

  function KindOf(v: Val): Kind {
    match v
    case IntVal(_) => Integer
    case TextVal(_) => Txt
    case TableVal => Tbl
    case _ => NoKind
  }

  // The collector's fields.
  datatype Collector = Collector(
    depth: int,
    mset: Option<nat>,
    kind: Kind,
    found: set<nat>,
    ctype: string,
    list: seq<Resource>)

  const NEW := Collector(1, None, NoKind, {}, "", [])

  function ResourceOf(group: nat, name: string): Resource
    requires group < CONTENT_TYPE
  {
    Resource(DIRS[group] + "/" + name + "." + EXTS[group], name + "." + EXTS[group], EXTS[group])
  }

  // Copying a shorter text over a longer one leaves the longer one's tail.
  function Overlay(before: string, s: string): (after: string)
    ensures s <= after && (|before| <= |s| ==> after == s)
    ensures |before| > |s| ==> |after| == |before| && after[|s|..] == before[|s|..]
  {
    s + if |s| < |before| then before[|s|..] else []
  }

  // Models, queries and views are noted as present, a content type is not.
  function Flag(group: nat): set<nat> {
    if group < CONTENT_TYPE then {group} else {}
  }

  // A reserved key directly in the route selects what follows.
  function Select(c: Collector, r: Record): Collector {
    if c.depth == 1 && r.key.TextKey? && Selects(r.key.s).Some? then
      c.(mset := Selects(r.key.s), kind := KindOf(r.val), found := c.found + Flag(Selects(r.key.s).value))
    else c
  }

  predicate IsContentType(c: Collector, r: Record) {
    c.depth == 1 && r.key == TextKey("content-type")
  }

  function Collect(c: Collector, r: Record): Collector {
    var c' := Select(c, r);
    if IsContentType(c, r) then
      c'.(ctype := if r.val.TextVal? then Overlay(c.ctype, r.val.s) else c.ctype)
    else if r.val == TableVal then c'.(depth := c.depth + 1)
    else
      var list := if c'.mset.Some? && c'.mset.value < CONTENT_TYPE && r.val.TextVal?
                  then c.list + [ResourceOf(c'.mset.value, r.val.s)] else c.list;
      c'.(list := list,
          mset := if r.key == Terminator || c'.kind == Txt then None else c'.mset,
          depth := if r.key == Terminator then c.depth - 1 else c.depth)
  }

  function CollectAll(c: Collector, rs: seq<Record>): Collector
    decreases |rs|
  {
    if rs == [] then c else CollectAll(Collect(c, rs[0]), rs[1..])
  }

  class MvcList {
    var depth: int
    var mset: Option<nat>
    var kind: Kind
    var found: set<nat>
    var ctype: string
    var list: seq<Resource>

    ghost function At(): Collector
      reads this
    {
      Collector(depth, mset, kind, found, ctype, list)
    }

    constructor ()
      ensures At() == NEW
    {
      depth, mset, kind, found, ctype, list := 1, None, NoKind, {}, "", [];
    }

    method Choose(group: nat, v: Val)
      modifies this
      ensures At() == old(At()).(mset := Some(group), kind := KindOf(v), found := old(found) + Flag(group))
    {
      mset, kind, found := Some(group), KindOf(v), if group < CONTENT_TYPE then found + {group} else found;
    }

    // One record of the route.
    method Visit(r: Record)
      modifies this
      ensures At() == Collect(old(At()), r)
    {
      var contentType := false;
      if depth == 1 {
        if r.key.TextKey? {
          var key := r.key.s;
          var reserved := IsReserved(key);
          if reserved {
            if key == "model" || key == "models" {
              Choose(MODEL, r.val);
            } else if key == "query" {
              Choose(QUERY, r.val);
            } else if key == "content-type" {
              Choose(CONTENT_TYPE, r.val);
              contentType := true;
            } else if key == "view" || key == "views" {
              Choose(VIEW, r.val);
            }
          }
        }
        if contentType {
          if r.val.TextVal? { ctype := Overlay(ctype, r.val.s); }
          return;
        }
      }
      if r.val == TableVal {
        depth := depth + 1;
        return;
      }
      if mset.Some? && mset.value < CONTENT_TYPE && r.val.TextVal? {
        list := list + [ResourceOf(mset.value, r.val.s)];
      }
      if r.key == Terminator || kind == Txt {
        mset := None;
      }
      if r.key == Terminator {
        depth := depth - 1;
      }
    }

    // The records of one route, after its own opening record.
    method VisitAll(rs: seq<Record>)
      modifies this
      ensures At() == CollectAll(old(At()), rs)
    {
      for i := 0 to |rs|
        invariant CollectAll(old(At()), rs) == CollectAll(At(), rs[i..])
      {
        assert rs[i..][1..] == rs[i + 1..];
        Visit(rs[i]);
      }
    }
  }

  // ---------- What a route asks for ----------

  // The group selected by an immediate key of the route.
  function KeySelects(e: Entry): Option<nat>
    requires ValidEntry(e)
  {
    if e.key.Text? then Selects(CString(e.key.s)) else None
  }

  // The resources named by the entries of a flat list, in order; numbers name none.
  function ListResources(group: nat, es: seq<Entry>): seq<Resource>
    requires ValidKeys(es) && group < CONTENT_TYPE
  {
    if es == [] then []
    else
      var last := es[|es| - 1];
      ListResources(group, es[..|es| - 1])
      + if last.val.Table? || ScalarRecord(last.val).IntVal? then []
        else [ResourceOf(group, ScalarRecord(last.val).s)]
  }

  function EntryResources(e: Entry): seq<Resource>
    requires ValidEntry(e)
  {
    var group := KeySelects(e);
    if group.None? || group.value == CONTENT_TYPE then []
    else if e.val.Table? then ListResources(group.value, e.val.entries)
    else if ScalarRecord(e.val).IntVal? then []
    else [ResourceOf(group.value, ScalarRecord(e.val).s)]
  }

  // The resources of the immediate handled keys, in order.
  function Resources(es: seq<Entry>): seq<Resource>
    requires ValidKeys(es)
  {
    if es == [] then [] else
      assert ValidEntry(es[|es| - 1]);
      Resources(es[..|es| - 1]) + EntryResources(es[|es| - 1])
  }

  // The content type once an entry has been read, and after all of them.
  function ContentTypeAfter(before: string, e: Entry): string
    requires ValidEntry(e)
  {
    if KeySelects(e) == Some(CONTENT_TYPE) && !e.val.Table? && ScalarRecord(e.val).TextVal?
    then Overlay(before, ScalarRecord(e.val).s) else before
  }

  function ContentType(before: string, es: seq<Entry>): string
    requires ValidKeys(es)
  {
    if es == [] then before else
      assert ValidEntry(es[|es| - 1]);
      ContentTypeAfter(ContentType(before, es[..|es| - 1]), es[|es| - 1])
  }

  // The kinds that an immediate key selects.
  function Selected(es: seq<Entry>): set<nat>
    requires ValidKeys(es)
  {
    if es == [] then {} else
      assert ValidEntry(es[|es| - 1]);
      Selected(es[..|es| - 1]) + SelectedAt(es[|es| - 1])
  }

  function SelectedAt(e: Entry): set<nat>
    requires ValidEntry(e)
  {
    if KeySelects(e).Some? then Flag(KeySelects(e).value) else {}
  }

  predicate Flat(es: seq<Entry>) {
    forall i :: 0 <= i < |es| ==> !es[i].val.Table?
  }

  // A handled key holds a text or a flat list, and the content type is a text.
  predicate ProperEntry(e: Entry)
    requires ValidEntry(e)
  {
    KeySelects(e).Some? ==>
      if e.val.Table? then KeySelects(e) != Some(CONTENT_TYPE) && Flat(e.val.entries) else !IsNumber(e.val)
  }

  predicate ProperRoute(es: seq<Entry>) {
    forall i :: 0 <= i < |es| ==> ValidEntry(es[i]) && ProperEntry(es[i])
  }

  // Between two immediate entries nothing is selected, or only a content type just read.
  predicate Idle(c: Collector) {
    c.mset.None? || (c.mset == Some(CONTENT_TYPE) && c.kind == Txt)
  }

  lemma {:induction false} CollectConcat(c: Collector, a: seq<Record>, b: seq<Record>)
    ensures CollectAll(c, a + b) == CollectAll(CollectAll(c, a), b)
    decreases |a|
  {
    if a == [] {
      assert a + b == b;
    } else {
      assert (a + b)[1..] == a[1..] + b;
      CollectConcat(Collect(c, a[0]), a[1..], b);
    }
  }

  // Below an unselected table nothing is collected.
  lemma {:induction false} NestedIsIgnored(c: Collector, es: seq<Entry>)
    requires ValidKeys(es) && Idle(c) && c.depth >= 2
    ensures var c' := CollectAll(c, Flatten(es));
            Idle(c') && c' == c.(mset := c'.mset)
    decreases es, 1
  {
    if es != [] {
      var init, last := es[..|es| - 1], es[|es| - 1];
      assert ValidEntry(last);
      NestedIsIgnored(c, init);
      NestedEntryIsIgnored(CollectAll(c, Flatten(init)), last);
      CollectConcat(c, Flatten(init), FlattenEntry(last));
    }
  }

  lemma {:induction false} NestedEntryIsIgnored(c: Collector, e: Entry)
    requires ValidEntry(e) && Idle(c) && c.depth >= 1 && (c.depth == 1 ==> KeySelects(e).None?)
    ensures var c' := CollectAll(c, FlattenEntry(e));
            Idle(c') && c' == c.(mset := c'.mset)
    decreases e, 0
  {
    hide Collect, CollectAll;
    var k := KeyRecord(e.key);
    KeyIsIgnored(c, e, if e.val.Table? then TableVal else ScalarRecord(e.val));
    if e.val.Table? {
      NestedIsIgnored(c.(depth := c.depth + 1), e.val.entries);
      RunTableRecords(c, k, e.val.entries);
      CloseIsIgnored(CollectAll(c.(depth := c.depth + 1), Flatten(e.val.entries)));
    } else {
      RunOneRecord(c, Record(k, ScalarRecord(e.val)));
    }
  }

  lemma KeyIsIgnored(c: Collector, e: Entry, v: Val)
    requires ValidEntry(e) && Idle(c) && c.depth >= 1 && (c.depth == 1 ==> KeySelects(e).None?)
    requires v.IntVal? || v.TextVal? || v == TableVal
    ensures var c' := Collect(c, Record(KeyRecord(e.key), v));
            if v == TableVal then c' == c.(depth := c.depth + 1)
            else Idle(c') && c' == c.(mset := c'.mset)
  {
    hide CString, ToInt, ToInteger, KindOf, ResourceOf, Overlay, ValidKeys;
    var r := Record(KeyRecord(e.key), v);
    if c.depth == 1 {
      assert Select(c, r) == c && !IsContentType(c, r);
    }
  }

  lemma CloseIsIgnored(c: Collector)
    requires c.depth >= 2 && Idle(c)
    ensures Collect(c, CLOSE) == c.(depth := c.depth - 1, mset := None)
  {
  }

  lemma RunOneRecord(c: Collector, r: Record)
    ensures CollectAll(c, [r]) == Collect(c, r)
  {
    assert [r][1..] == [];
  }

  lemma RunTableRecords(c: Collector, k: Key, es: seq<Entry>)
    requires ValidKeys(es)
    ensures CollectAll(c, [Record(k, TableVal)] + Flatten(es) + [CLOSE])
            == Collect(CollectAll(Collect(c, Record(k, TableVal)), Flatten(es)), CLOSE)
  {
    CollectConcat(c, [Record(k, TableVal)] + Flatten(es), [CLOSE]);
    CollectConcat(c, [Record(k, TableVal)], Flatten(es));
    RunOneRecord(c, Record(k, TableVal));
    RunOneRecord(CollectAll(Collect(c, Record(k, TableVal)), Flatten(es)), CLOSE);
  }

  // Inside a selected flat list every text is a resource.
  lemma {:induction false} ListIsCollected(c: Collector, es: seq<Entry>)
    requires ValidKeys(es) && Flat(es) && c.depth == 2 && c.kind == Tbl
    requires c.mset.Some? && c.mset.value < CONTENT_TYPE
    ensures CollectAll(c, Flatten(es)) == c.(list := c.list + ListResources(c.mset.value, es))
  {
    if es == [] {
      assert c.list + [] == c.list;
    } else {
      var init, last := es[..|es| - 1], es[|es| - 1];
      assert ValidEntry(last) && !last.val.Table?;
      ListIsCollected(c, init);
      CollectConcat(c, Flatten(init), FlattenEntry(last));
      RunOneRecord(CollectAll(c, Flatten(init)), Record(KeyRecord(last.key), ScalarRecord(last.val)));
    }
  }

  lemma {:induction false} EntryIsCollected(c: Collector, e: Entry)
    requires ValidEntry(e) && ProperEntry(e) && Idle(c) && c.depth == 1
    ensures var c' := CollectAll(c, FlattenEntry(e));
            && Idle(c') && c'.depth == 1
            && c'.list == c.list + EntryResources(e)
            && c'.found == c.found + SelectedAt(e)
            && c'.ctype == ContentTypeAfter(c.ctype, e)
  {
    hide CString, ToInt, ToInteger, ResourceOf, Overlay;
    if KeySelects(e).None? {
      NestedEntryIsIgnored(c, e);
    } else if e.val.Table? {
      var k := KeyRecord(e.key);
      ListIsCollected(Collect(c, Record(k, TableVal)), e.val.entries);
      RunTableRecords(c, k, e.val.entries);
    } else {
      RunOneRecord(c, Record(KeyRecord(e.key), ScalarRecord(e.val)));
    }
  }

  lemma NothingCollected(c: Collector)
    ensures CollectAll(c, []) == c
  {
  }

  lemma {:induction false} RouteIsCollected(c: Collector, es: seq<Entry>)
    requires ValidKeys(es) && ProperRoute(es) && Idle(c) && c.depth == 1
    ensures var c' := CollectAll(c, Flatten(es));
            && Idle(c') && c'.depth == 1
            && c'.list == c.list + Resources(es)
            && c'.found == c.found + Selected(es)
            && c'.ctype == ContentType(c.ctype, es)
  {
    hide Collect, CollectAll, FlattenEntry, EntryResources, SelectedAt, KeySelects;
    hide ProperEntry, ValidEntry, ContentTypeAfter;
    if es == [] {
      NothingCollected(c);
    } else {
      var init, last := es[..|es| - 1], es[|es| - 1];
      assert ValidEntry(last) && ProperEntry(last);
      RouteIsCollected(c, init);
      CollectConcat(c, Flatten(init), FlattenEntry(last));
      EntryIsCollected(CollectAll(c, Flatten(init)), last);
    }
  }

  // Run over a route's own records, the collector ends outside it holding exactly the
  // resources of the route's immediate handled keys, in order, which of them there were, and
  // their content type; nested routes add nothing.
  lemma CollectsExactlyTheRoute(es: seq<Entry>)
    requires ValidKeys(es) && ProperRoute(es)
    ensures var c := CollectAll(NEW, Flatten(es) + [CLOSE]);
            c.depth == 0 && c.list == Resources(es) && c.found == Selected(es) && c.ctype == ContentType("", es)
  {
    RouteIsCollected(NEW, es);
    CollectConcat(NEW, Flatten(es), [CLOSE]);
    RunOneRecord(CollectAll(NEW, Flatten(es)), CLOSE);
  }

  // ---------- What each key asks for ----------

  function File(dir: string, name: string, ext: string): Resource {
    Resource(dir + "/" + name + "." + ext, name + "." + ext, ext)
  }

  // A text under a key asks for one file, models in app, queries in sql and views in views;
  // under any other key for none.
  lemma ResourceOfText(key: string, name: string)
    requires '\0' !in key && '\0' !in name
    ensures ValidEntry(Entry(Text(key), Text(name)))
    ensures var e := Entry(Text(key), Text(name));
            match key
            case "model" => EntryResources(e) == [File("app", name, "lua")] && SelectedAt(e) == {0}
            case "models" => EntryResources(e) == [File("app", name, "lua")] && SelectedAt(e) == {0}
            case "query" => EntryResources(e) == [File("sql", name, "sql")] && SelectedAt(e) == {1}
            case "view" => EntryResources(e) == [File("views", name, "tpl")] && SelectedAt(e) == {2}
            case "views" => EntryResources(e) == [File("views", name, "tpl")] && SelectedAt(e) == {2}
            case _ => EntryResources(e) == [] && SelectedAt(e) == {}
    ensures ContentTypeAfter("", Entry(Text(key), Text(name))) == if key == "content-type" then name else ""
  {
    hide Selects, ResourceOf, EntryResources, SelectedAt, ContentTypeAfter, ValidEntry, File;
    TextUnderKey(key, name);
    SelectsIs(key);
    FilesOfGroups(name);
  }

  lemma TextUnderKey(key: string, name: string)
    requires '\0' !in key && '\0' !in name
    ensures var e, group := Entry(Text(key), Text(name)), Selects(key);
            && ValidEntry(e)
            && EntryResources(e) ==
                 (if group.Some? && group.value < CONTENT_TYPE then [ResourceOf(group.value, name)] else [])
            && SelectedAt(e) == (if group.Some? then Flag(group.value) else {})
            && ContentTypeAfter("", e) == if group == Some(CONTENT_TYPE) then name else ""
  {
    hide Selects, ResourceOf, CString, ToInt, ToInteger, Overlay;
    assert Overlay("", name) == name by { OverNothing(name); }
    SelectsAGroup(key);
  }

  lemma OverNothing(name: string)
    ensures Overlay("", name) == name
  {
  }

  lemma SelectsAGroup(key: string)
    ensures Selects(key).Some? ==> Selects(key).value <= CONTENT_TYPE
  {
    hide IsWordOf;
  }

  lemma SelectsIs(key: string)
    ensures match key
            case "model" => Selects(key) == Some(0)
            case "models" => Selects(key) == Some(0)
            case "query" => Selects(key) == Some(1)
            case "view" => Selects(key) == Some(2)
            case "views" => Selects(key) == Some(2)
            case "content-type" => Selects(key) == Some(3)
            case _ => Selects(key) == None
  {
  }

  lemma FilesOfGroups(name: string)
    ensures ResourceOf(0, name) == File("app", name, "lua")
    ensures ResourceOf(1, name) == File("sql", name, "sql")
    ensures ResourceOf(2, name) == File("views", name, "tpl")
  {
  }

  // A list under a key asks for the file of each of its texts, in order.
  lemma {:induction false} ResourcesOfList(group: nat, names: seq<Entry>)
    requires ValidKeys(names) && group < CONTENT_TYPE && forall i :: 0 <= i < |names| ==> names[i].val.Text?
    ensures |ListResources(group, names)| == |names|
    ensures forall i :: 0 <= i < |names| ==>
              ListResources(group, names)[i] == ResourceOf(group, CString(names[i].val.s))
    decreases |names|
  {
    hide CString, ResourceOf;
    if names != [] {
      ResourcesOfList(group, names[..|names| - 1]);
    }
  }

  lemma ListUnderKey(key: Value, names: seq<Entry>)
    requires ValidKey(key) && ValidKeys(names)
    requires KeySelects(Entry(key, Nil)).Some? && KeySelects(Entry(key, Nil)).value < CONTENT_TYPE
    ensures EntryResources(Entry(key, Table(names))) == ListResources(KeySelects(Entry(key, Nil)).value, names)
  {
    hide ListResources, Selects, CString;
  }
}
