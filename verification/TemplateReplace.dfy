/** Placeholder substitution in the project templates: replace of src/cli/cli.c, which cuts the
    template into chunks in place, and the loop that writes the chunks to a file. */
module TemplateReplace {
  import opened Options

  const MARK := '@'
  const QUOTE := '"'
  const POINTS := 64

  // A known placeholder and the argument that replaces it.
  datatype Setting = Setting(key: string, value: string)

  // Where the bytes of a chunk are: in the template's own buffer, or an argument.
  datatype Source = Inside(at: nat) | Given(text: string) | Null
  datatype Chunk = Chunk(size: int, source: Source)

  // ---------- What substitution means ----------

  predicate Proper(settings: seq<Setting>) {
    forall i :: 0 <= i < |settings| ==> MARK !in settings[i].key && QUOTE !in settings[i].key
  }

  // The setting a placeholder's text starts with; the last one wins.
  function Lookup(settings: seq<Setting>, text: string): Option<string> {
    if settings == [] then None
    else
      var last := settings[|settings| - 1];
      if last.key <= text then Some(last.value) else Lookup(settings[..|settings| - 1], text)
  }

  function FirstMark(t: string): (j: nat)
    ensures j <= |t| && MARK !in t[..j] && (j < |t| ==> t[j] == MARK)
  {
    if t == [] || t[0] == MARK then 0 else 1 + FirstMark(t[1..])
  }

  // Every placeholder by its quoted value.  A mark that is never closed is written as two
  // quotes before the rest.
  function Substitute(settings: seq<Setting>, t: string): string
    decreases |t|
  {
    if t == [] then []
    else if t[0] == MARK then [QUOTE] + Fill(settings, t[1..])
    else [t[0]] + Substitute(settings, t[1..])
  }

  function Fill(settings: seq<Setting>, t: string): string
    decreases |t|
  {
    var j := FirstMark(t);
    if j == |t| then [QUOTE] + t
    else
      var value := Lookup(settings, t[..j]);
      (if value.Some? then value.value else []) + [QUOTE] + Substitute(settings, t[j + 1..])
  }

  // Every placeholder in the text is a known one; inside says whether it starts in one.
  predicate AllKnown(settings: seq<Setting>, t: string, inside: bool)
    decreases |t|
  {
    var j := FirstMark(t);
    j == |t| || ((inside ==> Lookup(settings, t[..j]).Some?) && AllKnown(settings, t[j + 1..], !inside))
  }

  function Marks(t: string): nat {
    if t == [] then 0 else (if t[0] == MARK then 1 else 0) + Marks(t[1..])
  }

  // ---------- What the chunks stand for ----------

  predicate InBounds(c: Chunk, buffer: string) {
    match c.source
    case Inside(at) => 0 <= c.size && at + c.size <= |buffer|
    case Given(text) => c.size == |text|
    case Null => c.size <= 0
  }

  function ChunkText(c: Chunk, buffer: string): string
    requires InBounds(c, buffer)
  {
    match c.source
    case Inside(at) => buffer[at..at + c.size]
    case Given(text) => text
    case Null => []
  }

  predicate Filled(chunks: seq<Chunk>, buffer: string) {
    forall c <- chunks :: InBounds(c, buffer) && c.size >= 0
  }

  function Joined(chunks: seq<Chunk>, buffer: string): string
    requires Filled(chunks, buffer)
  {
    if chunks == [] then []
    else Joined(chunks[..|chunks| - 1], buffer) + ChunkText(chunks[|chunks| - 1], buffer)
  }

  // The buffer once every mark has become a quote.
  function Quoted(t: string): (q: string)
    ensures |q| == |t|
  {
    if t == [] then [] else [if t[0] == MARK then QUOTE else t[0]] + Quoted(t[1..])
  }

  lemma {:induction false} QuotedAt(t: string, i: nat)
    requires i < |t|
    ensures Quoted(t)[i] == if t[i] == MARK then QUOTE else t[i]
  {
    if i > 0 {
      QuotedAt(t[1..], i - 1);
    }
  }

  lemma {:induction false} QuotedRange(t: string, i: nat, j: nat)
    requires i <= j <= |t| && MARK !in t[i..j]
    ensures Quoted(t)[i..j] == t[i..j]
  {
    hide Quoted;
    if i < j {
      assert t[i..j] == t[i..j - 1] + [t[j - 1]];
      QuotedRange(t, i, j - 1);
      QuotedAt(t, j - 1);
      assert Quoted(t)[i..j] == Quoted(t)[i..j - 1] + [Quoted(t)[j - 1]];
    }
  }

  // Setting i is the last one whose key the text starts with.
  predicate LastFit(settings: seq<Setting>, i: int, text: string) {
    && 0 <= i < |settings| && settings[i].key <= text
    && forall j :: i < j < |settings| ==> !(settings[j].key <= text)
  }

  // What is looked up is the value of that setting, and nothing if there is none.
  lemma {:induction false} LookupIs(settings: seq<Setting>, text: string)
    ensures match Lookup(settings, text)
            case None => forall i :: 0 <= i < |settings| ==> !(settings[i].key <= text)
            case Some(value) => exists i :: LastFit(settings, i, text) && value == settings[i].value
    decreases |settings|
  {
    if settings != [] {
      var init, last := settings[..|settings| - 1], |settings| - 1;
      if settings[last].key <= text {
        assert LastFit(settings, last, text);
      } else {
        LookupIs(init, text);
        assert forall i :: LastFit(init, i, text) ==> LastFit(settings, i, text) && init[i] == settings[i];
      }
    }
  }

  lemma {:induction false} LookupOf(settings: seq<Setting>, i: nat, text: string)
    requires LastFit(settings, i, text)
    ensures Lookup(settings, text) == Some(settings[i].value)
    decreases |settings|
  {
    if i < |settings| - 1 {
      LookupOf(settings[..|settings| - 1], i, text);
    }
  }

  // The placeholders of the program and the arguments that fill them.
  function Arguments(database: string, domain: string, title: string): (settings: seq<Setting>)
    ensures Proper(settings)
    ensures Lookup(settings, "db") == Some(database)
    ensures Lookup(settings, "fqdn") == Some(domain)
    ensures Lookup(settings, "title") == Some(title)
  {
    var settings := [Setting("db", database), Setting("fqdn", domain), Setting("title", title)];
    LookupOf(settings, 0, "db");
    LookupOf(settings, 1, "fqdn");
    LookupOf(settings, 2, "title");
    settings
  }

  // The chunk of a placeholder: what the loop over the settings leaves in it.
  method Choose(settings: seq<Setting>, rest: string, was: Chunk) returns (c: Chunk)
    ensures var value := Lookup(settings, rest);
            c == if value.Some? then Chunk(|value.value|, Given(value.value)) else was
    ensures (c == was && forall i :: 0 <= i < |settings| ==> !(settings[i].key <= rest))
            || exists i :: LastFit(settings, i, rest) && c == Chunk(|settings[i].value|, Given(settings[i].value))
  {
    c := was;
    for k := 0 to |settings|
      invariant var value := Lookup(settings[..k], rest);
                c == if value.Some? then Chunk(|value.value|, Given(value.value)) else was
    {
      assert settings[..k + 1][..k] == settings[..k];
      if settings[k].key <= rest {
        c := Chunk(|settings[k].value|, Given(settings[k].value));
      }
    }
    assert settings[..|settings|] == settings;
    LookupIs(settings, rest);
  }

  // A key fits the bytes from a placeholder on exactly if it fits the placeholder.
  lemma {:induction false} LookupStopsAtTheQuote(settings: seq<Setting>, name: string, rest: string)
    requires Proper(settings)
    ensures Lookup(settings, name + [QUOTE] + rest) == Lookup(settings, name)
    decreases |settings|
  {
    if settings != [] {
      var key := settings[|settings| - 1].key;
      LookupStopsAtTheQuote(settings[..|settings| - 1], name, rest);
      var t := name + [QUOTE] + rest;
      if |key| <= |name| {
        assert t[..|key|] == name[..|key|];
      } else {
        assert key[|name|] in key && t[|name|] == QUOTE;
        assert !(key <= t);
      }
    }
  }

  lemma {:induction false} FirstMarkAt(t: string, j: nat)
    requires j <= |t| && MARK !in t[..j] && (j < |t| ==> t[j] == MARK)
    ensures FirstMark(t) == j
  {
    if j > 0 {
      assert t[0] == t[..j][0] && t[1..][..j - 1] == t[..j][1..];
      FirstMarkAt(t[1..], j - 1);
    }
  }

  // Outside a placeholder, one character further.
  lemma PlainCharacter(settings: seq<Setting>, t: string)
    requires t != [] && t[0] != MARK
    ensures Substitute(settings, t) == [t[0]] + Substitute(settings, t[1..])
    ensures AllKnown(settings, t, false) <==> AllKnown(settings, t[1..], false)
    ensures Marks(t) == Marks(t[1..])
  {
    assert t[FirstMark(t[1..]) + 1..] == t[1..][FirstMark(t[1..])..];
  }

  lemma OpeningMark(settings: seq<Setting>, t: string)
    requires t != [] && t[0] == MARK
    ensures Substitute(settings, t) == [QUOTE] + Fill(settings, t[1..])
    ensures AllKnown(settings, t, false) ==> AllKnown(settings, t[1..], true)
    ensures Marks(t) == 1 + Marks(t[1..])
  {
  }

  lemma ClosingMark(settings: seq<Setting>, t: string, j: nat)
    requires j < |t| && MARK !in t[..j] && t[j] == MARK && AllKnown(settings, t, true)
    ensures Lookup(settings, t[..j]).Some? && AllKnown(settings, t[j + 1..], false)
    ensures Fill(settings, t) == Lookup(settings, t[..j]).value + [QUOTE] + Substitute(settings, t[j + 1..])
  {
    FirstMarkAt(t, j);
  }

  // ---------- The cutting loop ----------

  // At position k of template t outside any placeholder, f1 being where the next chunk starts.
  ghost predicate Outside(settings: seq<Setting>, t: string, chunks: seq<Chunk>, f1: nat, k: nat)
    requires f1 <= k <= |t|
  {
    var q := Quoted(t);
    && Filled(chunks, q) && |chunks| + Marks(t[k..]) == Marks(t) && AllKnown(settings, t[k..], false)
    && Substitute(settings, t) == Joined(chunks, q) + q[f1..k] + Substitute(settings, t[k..])
  }

  // At position k in the placeholder opened at f1.
  ghost predicate Within(settings: seq<Setting>, t: string, chunks: seq<Chunk>, f1: nat, k: nat)
    requires f1 < k <= |t|
  {
    var q := Quoted(t);
    && Filled(chunks, q) && |chunks| + Marks(t[k..]) == Marks(t) && q[f1] == QUOTE
    && MARK !in t[f1 + 1..k] && AllKnown(settings, t[f1 + 1..], true)
    && Substitute(settings, t) == Joined(chunks, q) + Fill(settings, t[f1 + 1..])
  }

  lemma JoinedMore(chunks: seq<Chunk>, c: Chunk, q: string)
    requires Filled(chunks, q) && InBounds(c, q) && c.size >= 0
    ensures Filled(chunks + [c], q) && Joined(chunks + [c], q) == Joined(chunks, q) + ChunkText(c, q)
  {
    assert (chunks + [c])[..|chunks|] == chunks;
  }

  lemma StepOutside(settings: seq<Setting>, t: string, chunks: seq<Chunk>, f1: nat, k: nat)
    requires f1 <= k < |t| && Outside(settings, t, chunks, f1, k) && t[k] != MARK
    ensures Outside(settings, t, chunks, f1, k + 1)
  {
    hide Joined, Substitute, AllKnown, Marks;
    PlainCharacter(settings, t[k..]);
    assert t[k..][1..] == t[k + 1..];
    QuotedAt(t, k);
    assert Quoted(t)[f1..k + 1] == Quoted(t)[f1..k] + [t[k]];
  }

  lemma StepOpening(settings: seq<Setting>, t: string, chunks: seq<Chunk>, f1: nat, k: nat)
    requires f1 <= k < |t| && Outside(settings, t, chunks, f1, k) && t[k] == MARK
    ensures Within(settings, t, chunks + [Chunk(k + 1 - f1, Inside(f1))], k, k + 1) && |chunks| < Marks(t)
  {
    hide Joined, Substitute, Fill, AllKnown, Marks, Filled, Lookup, InBounds, ChunkText, Quoted;
    OpeningMark(settings, t[k..]);
    assert t[k..][1..] == t[k + 1..];
    OpeningChunk(t, chunks, f1, k);
    Regroup(Joined(chunks, Quoted(t)), Quoted(t)[f1..k], [QUOTE], Fill(settings, t[k + 1..]));
  }

  lemma OpeningChunk(t: string, chunks: seq<Chunk>, f1: nat, k: nat)
    requires f1 <= k < |t| && t[k] == MARK && Filled(chunks, Quoted(t))
    ensures var q, all := Quoted(t), chunks + [Chunk(k + 1 - f1, Inside(f1))];
            q[k] == QUOTE && Filled(all, q) && Joined(all, q) == Joined(chunks, q) + (q[f1..k] + [QUOTE])
  {
    hide Joined, Filled, Quoted;
    QuoteEndsIt(t, f1, k);
    JoinedMore(chunks, Chunk(k + 1 - f1, Inside(f1)), Quoted(t));
  }

  lemma Regroup(a: string, b: string, c: string, d: string)
    ensures a + b + (c + d) == a + (b + c) + d
  {
  }

  lemma QuoteEndsIt(t: string, f1: nat, k: nat)
    requires f1 <= k < |t| && t[k] == MARK
    ensures Quoted(t)[k] == QUOTE && Quoted(t)[f1..f1 + (k + 1 - f1)] == Quoted(t)[f1..k] + [QUOTE]
  {
    hide Quoted;
    QuotedAt(t, k);
    var q := Quoted(t);
    assert q[f1..k + 1] == q[f1..k] + [q[k]];
  }

  lemma StepWithin(settings: seq<Setting>, t: string, chunks: seq<Chunk>, f1: nat, k: nat)
    requires f1 < k < |t| && Within(settings, t, chunks, f1, k) && t[k] != MARK
    ensures Within(settings, t, chunks, f1, k + 1)
  {
    hide Joined, Substitute, Fill, AllKnown;
    assert t[f1 + 1..k + 1] == t[f1 + 1..k] + [t[k]];
    assert t[k..][1..] == t[k + 1..];
  }

  lemma CutAround(t: string, i: nat, k: nat)
    requires i <= k < |t|
    ensures t[i..][..k - i] == t[i..k] && t[i..][k - i] == t[k] && t[i..][k - i + 1..] == t[k + 1..] == t[k..][1..]
  {
  }

  lemma StepClosing(settings: seq<Setting>, t: string, chunks: seq<Chunk>, f1: nat, k: nat)
    requires f1 < k < |t| && Within(settings, t, chunks, f1, k) && t[k] == MARK
    ensures var value := Lookup(settings, t[f1 + 1..k]);
            && value.Some? && |chunks| < Marks(t)
            && Outside(settings, t, chunks + [Chunk(|value.value|, Given(value.value))], k, k + 1)
  {
    hide Joined, Substitute, Fill, AllKnown;
    var q, rest := Quoted(t), t[f1 + 1..];
    CutAround(t, f1 + 1, k);
    ClosingMark(settings, rest, k - f1 - 1);
    var v := Lookup(settings, t[f1 + 1..k]).value;
    JoinedMore(chunks, Chunk(|v|, Given(v)), q);
    QuotedAt(t, k);
    assert q[k..k + 1] == [QUOTE];
  }

  lemma EndWithin(settings: seq<Setting>, t: string, chunks: seq<Chunk>, f1: nat)
    requires f1 < |t| && Within(settings, t, chunks, f1, |t|)
    ensures Substitute(settings, t) == Joined(chunks, Quoted(t)) + Quoted(t)[f1..]
  {
    hide Joined, Substitute, AllKnown, Filled, Lookup;
    var rest := t[f1 + 1..];
    assert rest[..|rest|] == rest == t[f1 + 1..|t|];
    FirstMarkAt(rest, |rest|);
    QuotedRange(t, f1 + 1, |t|);
    assert Quoted(t)[f1..] == [QUOTE] + Quoted(t)[f1 + 1..|t|];
  }

  lemma EndOutside(settings: seq<Setting>, t: string, chunks: seq<Chunk>, f1: nat)
    requires f1 <= |t| && Outside(settings, t, chunks, f1, |t|)
    ensures Substitute(settings, t) == Joined(chunks, Quoted(t)) + Quoted(t)[f1..]
  {
    hide Joined, AllKnown, Filled;
    assert Substitute(settings, t[|t|..]) == [];
    assert Quoted(t)[f1..] == Quoted(t)[f1..|t|];
  }

  // The last chunk reaches to the end of the template, in a placeholder or not.
  lemma StepEnd(settings: seq<Setting>, t: string, chunks: seq<Chunk>, f1: nat, inner: bool)
    requires f1 <= |t| && if inner then f1 < |t| && Within(settings, t, chunks, f1, |t|)
                                   else Outside(settings, t, chunks, f1, |t|)
    ensures var all := chunks + [Chunk(|t| - f1, Inside(f1))];
            Filled(all, Quoted(t)) && |all| == Marks(t) + 1 && Joined(all, Quoted(t)) == Substitute(settings, t)
  {
    hide Joined, Substitute, Fill, AllKnown, Lookup;
    var q, c := Quoted(t), Chunk(|t| - f1, Inside(f1));
    assert |chunks| == Marks(t) by { assert Marks(t[|t|..]) == 0; }
    if inner {
      EndWithin(settings, t, chunks, f1);
    } else {
      EndOutside(settings, t, chunks, f1);
    }
    JoinedMore(chunks, c, q);
    assert q[f1..f1 + c.size] == q[f1..];
  }

  // The bytes a placeholder's key is compared with.
  lemma PlaceholderBytes(settings: seq<Setting>, t: string, bytes: string, f1: nat, k: nat)
    requires Proper(settings) && f1 < k < |t| && |bytes| == |t| && bytes[k] == QUOTE
    requires bytes[f1 + 1..k] == t[f1 + 1..k]
    ensures Lookup(settings, bytes[f1 + 1..]) == Lookup(settings, t[f1 + 1..k])
  {
    assert bytes[f1 + 1..] == t[f1 + 1..k] + [QUOTE] + bytes[k + 1..];
    LookupStopsAtTheQuote(settings, t[f1 + 1..k], bytes[k + 1..]);
  }

  lemma StillPlain(t: string, bytes: string, f1: nat, k: nat)
    requires f1 < k <= |t| && bytes == Quoted(t)[..k] && MARK !in t[f1 + 1..k]
    ensures bytes[f1 + 1..] == t[f1 + 1..k]
  {
    QuotedRange(t, f1 + 1, k);
    assert bytes[f1 + 1..] == Quoted(t)[f1 + 1..k];
  }

  // replace
  method Replace(f: array<char>, settings: seq<Setting>, point: array<Chunk>)
    requires f.Length > 0 && f[f.Length - 1] == '\0' && '\0' !in f[..f.Length - 1] && point.Length == POINTS
    requires var t := f[..f.Length - 1];
             Proper(settings) && AllKnown(settings, t, false) && Marks(t) + 2 <= POINTS
    modifies f, point
    ensures var t := old(f[..f.Length - 1]);
            && f[..f.Length - 1] == Quoted(t)
            && Filled(point[..Marks(t) + 1], Quoted(t)) && point[Marks(t) + 1].size < 0
            && Joined(point[..Marks(t) + 1], Quoted(t)) == Substitute(settings, t)
  {
    hide Outside, Within, Substitute, AllKnown, Joined, Filled, Lookup, Quoted;
    ghost var t := f[..f.Length - 1];
    ghost var q := Quoted(t);
    var n := f.Length - 1;
    var f1, size, p, k, inner := 0, 0, 0, 0, false;
    for i := 0 to 4
      invariant f[..] == old(f[..])
    {
      point[i] := Chunk(0, Null);
    }
    StepStart(settings, t);
    while f[k] != '\0'
      invariant 0 <= f1 <= k <= n && size == k - f1 && f[n] == '\0' && 0 <= p < POINTS - 1
      invariant f[..k] == q[..k] && f[k..n] == t[k..]
      invariant !inner ==> Outside(settings, t, point[..p], f1, k)
      invariant inner ==> f1 < k && Within(settings, t, point[..p], f1, k)
      decreases n - k
    {
      assert f[k] == f[k..n][0] == t[k];
      QuotedAt(t, k);
      ghost var chunks := point[..p];
      if f[k] == MARK {
        f[k] := QUOTE;
        if !inner {
          StepOpening(settings, t, chunks, f1, k);
          size := size + 1;
          point[p] := Chunk(size, Inside(f1));
        } else {
          StepClosing(settings, t, chunks, f1, k);
          NoMarkWithin(settings, t, chunks, f1, k);
          StillPlain(t, q[..k], f1, k);
          assert f[..n][f1 + 1..k] == q[..k][f1 + 1..] && f[..n][f1 + 1..] == f[f1 + 1..n];
          PlaceholderBytes(settings, t, f[..n], f1, k);
          f1 := f1 + 1;
          point[p] := Choose(settings, f[f1..n], point[p]);
        }
        assert point[..p + 1] == chunks + [point[p]];
        inner, f1, size, p := !inner, k, 0, p + 1;
      } else if inner {
        StepWithin(settings, t, chunks, f1, k);
      } else {
        StepOutside(settings, t, chunks, f1, k);
      }
      assert f[k + 1..n] == t[k..][1..] == t[k + 1..];
      k, size := k + 1, size + 1;
    }
    assert f[..n] == q;
    ghost var chunks := point[..p];
    StepEnd(settings, t, chunks, f1, inner);
    point[p] := Chunk(size, Inside(f1));
    p := p + 1;
    point[p] := Chunk(-1, Null);
    assert point[..p] == chunks + [Chunk(size, Inside(f1))];
  }

  lemma NoMarkWithin(settings: seq<Setting>, t: string, chunks: seq<Chunk>, f1: nat, k: nat)
    requires f1 < k <= |t| && Within(settings, t, chunks, f1, k)
    ensures MARK !in t[f1 + 1..k]
  {
  }

  lemma StepStart(settings: seq<Setting>, t: string)
    requires AllKnown(settings, t, false)
    ensures Outside(settings, t, [], 0, 0)
  {
    assert t[0..] == t;
  }

  // ---------- The result ----------

  // The loop of dir_cmd that writes the chunks out, up to the terminator.
  method WriteOut(f: array<char>, point: array<Chunk>, len: nat, ghost n: nat) returns (out: string)
    requires n < point.Length && point[n].size < 0 && len <= f.Length && Filled(point[..n], f[..len])
    ensures out == Joined(point[..n], f[..len])
  {
    hide Joined, ChunkText;
    out := [];
    var c := 0;
    assert Joined(point[..0], f[..len]) == [] by { JoinedNothing(f[..len]); }
    while point[c].size > -1
      invariant 0 <= c <= n && out == Joined(point[..c], f[..len])
      decreases n - c
    {
      assert point[c] == point[..n][c];
      assert point[..c] == point[..n][..c] && point[..c + 1] == point[..c] + [point[c]];
      JoinedMore(point[..c], point[c], f[..len]);
      out := out + ChunkText(point[c], f[..len]);
      c := c + 1;
    }
  }

  lemma JoinedNothing(q: string)
    ensures Joined([], q) == []
  {
  }

  // A template file as dir_cmd fills it in: what is written is the substituted template.
  method FillTemplate(content: array<char>, settings: seq<Setting>, point: array<Chunk>) returns (out: string)
    requires content.Length > 0 && content[content.Length - 1] == '\0'
    requires '\0' !in content[..content.Length - 1] && point.Length == POINTS
    requires var t := content[..content.Length - 1];
             Proper(settings) && AllKnown(settings, t, false) && Marks(t) + 2 <= POINTS
    modifies content, point
    ensures out == Substitute(settings, old(content[..content.Length - 1]))
  {
    hide Joined, Substitute, AllKnown, Marks, Filled, Quoted;
    ghost var n := Marks(content[..content.Length - 1]) + 1;
    Replace(content, settings, point);
    out := WriteOut(content, point, content.Length - 1, n);
  }

  // ---------- Substitution, placeholder by placeholder ----------

  lemma {:induction false} SubstituteKeepsPlainText(settings: seq<Setting>, a: string, t: string)
    requires MARK !in a
    ensures Substitute(settings, a + t) == a + Substitute(settings, t)
  {
    if a == [] {
      assert a + t == t;
    } else {
      assert (a + t)[1..] == a[1..] + t;
      SubstituteKeepsPlainText(settings, a[1..], t);
    }
  }

  // Text before a placeholder stays, the placeholder becomes its value between quotes, and the
  // rest is substituted in turn.
  lemma SubstituteReplacesAPlaceholder(settings: seq<Setting>, a: string, name: string, b: string)
    requires MARK !in a && MARK !in name && Lookup(settings, name).Some?
    ensures Substitute(settings, a + ([MARK] + name + [MARK] + b))
         == a + [QUOTE] + Lookup(settings, name).value + [QUOTE] + Substitute(settings, b)
  {
    var t := [MARK] + name + [MARK] + b;
    SubstituteKeepsPlainText(settings, a, t);
    var rest := t[1..];
    assert rest[..|name|] == name && rest[|name| + 1..] == b;
    FirstMarkAt(rest, |name|);
  }

  // In terms of the setting itself.
  lemma SubstituteReplacesByTheValue(settings: seq<Setting>, i: nat, a: string, name: string, b: string)
    requires MARK !in a && MARK !in name && LastFit(settings, i, name)
    ensures Substitute(settings, a + ([MARK] + name + [MARK] + b))
         == a + [QUOTE] + settings[i].value + [QUOTE] + Substitute(settings, b)
    ensures AllKnown(settings, a + ([MARK] + name + [MARK] + b), false) <==> AllKnown(settings, b, false)
  {
    hide Substitute, Lookup, AllKnown;
    LookupOf(settings, i, name);
    SubstituteReplacesAPlaceholder(settings, a, name, b);
    KnownPlaceholder(settings, a, name, b);
  }

  lemma {:induction false} KnownPlaceholder(settings: seq<Setting>, a: string, name: string, b: string)
    requires MARK !in a && MARK !in name && Lookup(settings, name).Some?
    ensures AllKnown(settings, a + ([MARK] + name + [MARK] + b), false) <==> AllKnown(settings, b, false)
  {
    var t := a + ([MARK] + name + [MARK] + b);
    assert t[..|a|] == a && t[|a|] == MARK;
    FirstMarkAt(t, |a|);
    var rest := t[|a| + 1..];
    assert rest[..|name|] == name && rest[|name|] == MARK && rest[|name| + 1..] == b;
    FirstMarkAt(rest, |name|);
  }
}
