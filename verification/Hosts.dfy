/** The host list of src/configs.c, built from the flattened configuration. */
module Hosts {
  import opened CStrings
  import opened LuaValues
  import opened Options
  import opened RecordStream
  import opened TableSlices

  datatype Host = Host(
    name: string,
    alias: Option<string>,
    dir: Option<string>,
    filter: Option<string>,
    rootDefault: Option<string>,
    certFile: Option<string>,
    keyFile: Option<string>)

  // loader_run with the rules of hosts_iterator, on the records of one host's table.
  function HostFrom(name: string, rs: seq<Record>): Host {
    Host(name, TopText(rs, "alias"), TopText(rs, "dir"), TopText(rs, "filter"),
         TopText(rs, "root_default"), TopText(rs, "cert_file"), TopText(rs, "key_file"))
  }

  // What the walk through a table's records adds to the host list.
  function WalkHosts(rs: seq<Record>, depth: nat): seq<Host> {
    if rs == [] then []
    else
      var d := DepthAfter(depth, rs[0]);
      if d == 0 then []
      else
        (if rs[0].key.TextKey? && rs[0].val == TableVal && d == 2
         then [HostFrom(rs[0].key.s, Slice(rs[1..], 1))] else [])
        + WalkHosts(rs[1..], d)
  }

  // The hosts of a flattened configuration: the value under "hosts" must be a table.
  function HostsIn(t: seq<Record>): seq<Host> {
    HostsFrom(t, TopIndex(t, "hosts", 0))
  }

  function HostsFrom(t: seq<Record>, i: nat): seq<Host> {
    if i < |t| && t[i].val == TableVal then WalkHosts(t[i + 1..], 1) else []
  }

  // One record further.
  lemma WalkOne(t: seq<Record>, i: nat, depth: nat)
    requires i < |t|
    ensures var d := DepthAfter(depth, t[i]);
            WalkHosts(t[i..], depth) ==
              if d == 0 then []
              else (if t[i].key.TextKey? && t[i].val == TableVal && d == 2
                    then [HostFrom(t[i].key.s, Slice(t[i + 1..], 1))] else [])
                   + WalkHosts(t[i + 1..], d)
  {
    hide HostFrom, Slice, DepthAfter;
    assert t[i..][1..] == t[i + 1..];
  }

  // build_hosts: each text-keyed table directly in the hosts table becomes a host.
  method BuildHosts(t: seq<Record>) returns (hosts: seq<Host>)
    ensures hosts == HostsIn(t)
  {
    hide HostFrom, TopIndex, Slice, WalkHosts, DepthAfter, Copied;
    hosts := [];
    var start := TopIndex(t, "hosts", 0);
    if start == |t| || t[start].val != TableVal {
      return;
    }
    ghost var due := WalkHosts(t[start + 1..], 1);
    assert HostsIn(t) == due;
    var depth: nat, i := 1, start + 1;
    while i < |t|
      invariant i <= |t|
      invariant due == hosts + WalkHosts(t[i..], depth)
    {
      var r := t[i];
      WalkOne(t, i, depth);
      depth := DepthAfter(depth, r);
      if depth == 0 {
        break;
      }
      if r.key.TextKey? && r.val == TableVal && depth == 2 {
        var nt := ShallowCopy(t, i + 1);
        hosts := hosts + [HostFrom(r.key.s, nt.records)];
      }
      i := i + 1;
    }
    WalkNothing(depth);
    assert t[|t|..] == [];
  }

  lemma WalkNothing(depth: nat)
    ensures WalkHosts([], depth) == []
  {
  }

  // ---------- The hosts of a configuration table ----------

  // One immediate entry of the hosts table.
  function HostOf(e: Entry): Host
    requires ValidEntry(e) && e.key.Text? && e.val.Table?
  {
    var es := e.val.entries;
    Host(CString(e.key.s), FieldText(es, "alias"), FieldText(es, "dir"), FieldText(es, "filter"),
         FieldText(es, "root_default"), FieldText(es, "cert_file"), FieldText(es, "key_file"))
  }

  function HostsAt(e: Entry): seq<Host>
    requires ValidEntry(e)
  {
    if e.key.Text? && e.val.Table? then [HostOf(e)] else []
  }

  function HostsOf(es: seq<Entry>): seq<Host>
    requires ValidKeys(es)
  {
    if es == [] then [] else HostsOf(es[..|es| - 1]) + HostsAt(es[|es| - 1])
  }

  // Nothing below the immediate entries is taken for a host.
  lemma {:induction false} WalkDeeper(es: seq<Entry>, rest: seq<Record>, depth: nat)
    requires ValidKeys(es) && depth >= 2
    ensures WalkHosts(Flatten(es) + rest, depth) == WalkHosts(rest, depth)
    decreases es, 1
  {
    hide WalkHosts, FlattenEntry;
    if es == [] {
      assert [] + rest == rest;
    } else {
      var init, last := es[..|es| - 1], es[|es| - 1];
      assert ValidEntry(last);
      WalkDeeper(init, FlattenEntry(last) + rest, depth);
      WalkEntry(last, rest, depth);
      assert Flatten(es) + rest == Flatten(init) + (FlattenEntry(last) + rest);
    }
  }

  lemma {:induction false} WalkEntry(e: Entry, rest: seq<Record>, depth: nat)
    requires ValidEntry(e) && depth >= 1
    ensures WalkHosts(FlattenEntry(e) + rest, depth)
            == (if depth == 1 then HostsAt(e) else []) + WalkHosts(rest, depth)
    decreases e, 0
  {
    hide HostFrom, HostOf, TopText, FieldText, CString;
    var all := FlattenEntry(e) + rest;
    if e.val.Table? {
      var es := e.val.entries;
      assert all[1..] == Flatten(es) + ([CLOSE] + rest);
      WalkDeeper(es, [CLOSE] + rest, depth + 1);
      assert ([CLOSE] + rest)[1..] == rest;
      if depth == 1 && e.key.Text? {
        SliceTable(es, [CLOSE] + rest, 1);
        assert Slice(all[1..], 1) == Flatten(es);
        HostFromItsRecords(e);
      }
    } else {
      assert all[1..] == rest;
    }
  }

  lemma HostFromItsRecords(e: Entry)
    requires ValidEntry(e) && e.key.Text? && e.val.Table?
    ensures HostFrom(CString(e.key.s), Flatten(e.val.entries)) == HostOf(e)
    ensures var h, es := HostOf(e), e.val.entries;
            && h.name == CString(e.key.s) && h.alias == FieldText(es, "alias") && h.dir == FieldText(es, "dir")
            && h.filter == FieldText(es, "filter") && h.rootDefault == FieldText(es, "root_default")
            && h.certFile == FieldText(es, "cert_file") && h.keyFile == FieldText(es, "key_file")
  {
    hide TopText, FieldText;
    var es := e.val.entries;
    TopTextIsTheField(es, "alias");
    TopTextIsTheField(es, "dir");
    TopTextIsTheField(es, "filter");
    TopTextIsTheField(es, "root_default");
    TopTextIsTheField(es, "cert_file");
    TopTextIsTheField(es, "key_file");
  }

  lemma {:induction false} WalkTable(es: seq<Entry>, rest: seq<Record>)
    requires ValidKeys(es)
    ensures WalkHosts(Flatten(es) + rest, 1) == HostsOf(es) + WalkHosts(rest, 1)
    decreases |es|
  {
    hide HostFrom, HostsAt, FlattenEntry, WalkHosts;
    if es == [] {
      assert [] + rest == rest;
    } else {
      var init, last := es[..|es| - 1], es[|es| - 1];
      assert ValidEntry(last);
      WalkTable(init, FlattenEntry(last) + rest);
      WalkEntry(last, rest, 1);
      assert Flatten(es) + rest == Flatten(init) + (FlattenEntry(last) + rest);
    }
  }

  lemma WalkEnds(rest: seq<Record>)
    ensures WalkHosts([CLOSE] + rest, 1) == []
  {
  }

  // The hosts a configuration declares: the immediate text-keyed tables of its hosts table.
  function DeclaredHosts(config: seq<Entry>): seq<Host>
    requires ValidKeys(config)
  {
    DeclaredAt(config, KeyIndex(config, "hosts"))
  }

  function DeclaredAt(config: seq<Entry>, k: nat): seq<Host>
    requires ValidKeys(config)
  {
    if k < |config| && config[k].val.Table? then
      assert ValidEntry(config[k]);
      HostsOf(config[k].val.entries)
    else []
  }

  lemma WalkWholeTable(es: seq<Entry>, after: seq<Record>)
    requires ValidKeys(es)
    ensures WalkHosts(Flatten(es) + ([CLOSE] + after), 1) == HostsOf(es)
  {
    hide *;
    WalkTable(es, [CLOSE] + after);
    WalkEnds(after);
    assert HostsOf(es) + [] == HostsOf(es);
  }

  // build_hosts yields exactly one host per declared one, in order, whatever else the
  // configuration holds.
  lemma HostsAreTheDeclaredOnes(config: seq<Entry>)
    requires ValidKeys(config)
    ensures HostsIn(Flatten(config)) == DeclaredHosts(config)
  {
    hide TopIndex, KeyIndex, Flatten, HostsFrom, DeclaredAt, ValidKeys;
    HostsUnder(config, "hosts");
  }

  lemma HostsUnder(config: seq<Entry>, name: string)
    requires ValidKeys(config)
    ensures HostsFrom(Flatten(config), TopIndex(Flatten(config), name, 0)) == DeclaredAt(config, KeyIndex(config, name))
  {
    hide TopIndex, KeyIndex, Flatten, WalkHosts, HostsOf, ValidKeys;
    var k := KeyIndex(config, name);
    TableUnderKey(config, name);
    if k < |config| && config[k].val.Table? {
      WalkWholeTable(config[k].val.entries, Flatten(config[k + 1..]));
    }
  }

  // ---------- find_host ----------

  // The host name of a request: up to a colon, if there is one.
  function BareName(hostname: string): (r: string)
    ensures r <= hostname && ':' !in r
    ensures |r| < |hostname| ==> hostname[|r|] == ':'
  {
    if hostname == [] || hostname[0] == ':' then [] else [hostname[0]] + BareName(hostname[1..])
  }

  // An empty name was stored as a null pointer and answers nothing.
  predicate Answers(h: Host, name: string) {
    (h.name != "" && h.name == name) || h.alias == Some(name)
  }

  function Answering(hosts: seq<Host>, name: string): (found: Option<Host>)
    ensures found.None? <==> forall j :: 0 <= j < |hosts| ==> !Answers(hosts[j], name)
    ensures found.Some? ==> exists i :: IsFirstAnswer(hosts, i, name) && hosts[i] == found.value
  {
    if hosts == [] then None
    else if Answers(hosts[0], name) then (assert IsFirstAnswer(hosts, 0, name); Some(hosts[0]))
    else
      var found := Answering(hosts[1..], name);
      assert found.Some? ==>
          exists i :: IsFirstAnswer(hosts[1..], i, name) && hosts[1..][i] == found.value
                      && IsFirstAnswer(hosts, i + 1, name);
      found
  }

  predicate IsFirstAnswer(hosts: seq<Host>, i: int, name: string) {
    0 <= i < |hosts| && Answers(hosts[i], name) && forall j :: 0 <= j < i ==> !Answers(hosts[j], name)
  }

  lemma {:induction false} FirstAnswerIsIt(hosts: seq<Host>, i: nat, name: string)
    requires i <= |hosts| && forall j :: 0 <= j < i ==> !Answers(hosts[j], name)
    requires i < |hosts| ==> Answers(hosts[i], name)
    ensures Answering(hosts, name) == if i < |hosts| then Some(hosts[i]) else None
  {
    hide Answers;
    if i > 0 {
      assert hosts[1..][..i - 1] == hosts[1..i];
      FirstAnswerIsIt(hosts[1..], i - 1, name);
    }
  }

  // The first host whose name or alias is the bare name of the request.
  method FindHost(hosts: seq<Host>, hostname: string) returns (found: Option<Host>)
    ensures found == Answering(hosts, BareName(hostname))
    ensures found.None? ==> forall h <- hosts :: !(h.name != "" && h.name == BareName(hostname))
                                                 && h.alias != Some(BareName(hostname))
    ensures found.Some? ==>
              exists i :: 0 <= i < |hosts| && hosts[i] == found.value && IsFirstAnswer(hosts, i, BareName(hostname))
  {
    hide Answering, BareName;
    var host := BareName(hostname);
    for i := 0 to |hosts|
      invariant forall j :: 0 <= j < i ==> !Answers(hosts[j], host)
    {
      if hosts[i].name != "" && hosts[i].name == host {
        assert IsFirstAnswer(hosts, i, host);
        FirstAnswerIsIt(hosts, i, host);
        return Some(hosts[i]);
      }
      if hosts[i].alias == Some(host) {
        assert IsFirstAnswer(hosts, i, host);
        FirstAnswerIsIt(hosts, i, host);
        return Some(hosts[i]);
      }
    }
    FirstAnswerIsIt(hosts, |hosts|, host);
    return None;
  }
}
