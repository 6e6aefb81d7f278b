/** What a route is written for, and exactly which routes the router takes that way. */
module RouteMeaning {
  import opened CStrings
  import opened Router
  import opened Walker

  // A segment of a route, as its author means it.
  datatype Pattern =
    | Literal(text: string)
    | One(note: string)               // ?
    | Star(note: string)              // *
    | OneOf(options: seq<string>)     // {a,b}
    | Named(name: string)             // :name
    | Numeric(name: string)           // :name=number
    | Alphabetic(name: string)        // :name=string

  function Join(options: seq<string>): string {
    if options == [] then "" else if |options| == 1 then options[0] else options[0] + "," + Join(options[1..])
  }

  function Written(p: Pattern): string {
    match p
    case Literal(s) => s
    case One(n) => "?" + n
    case Star(n) => "*" + n
    case OneOf(os) => "{" + Join(os) + "}"
    case Named(n) => ":" + n
    case Numeric(n) => ":" + n + "=number"
    case Alphabetic(n) => ":" + n + "=string"
  }

  predicate Clean(s: string) { '/' !in s && '\0' !in s }

  // The text of a raw segment.
  predicate ValidText(s: string) { s != [] && Clean(s) && s[0] !in "?*{:" }

  predicate ValidOption(s: string) { ValidText(s) && ',' !in s && '}' !in s }

  predicate Valid(p: Pattern) {
    match p
    case Literal(s) => ValidText(s)
    case One(n) => Clean(n)
    case Star(n) => Clean(n)
    case OneOf(os) => os != [] && forall o <- os :: ValidOption(o)
    case Named(n) => Clean(n) && '=' !in n
    case Numeric(n) => Clean(n) && '=' !in n
    case Alphabetic(n) => Clean(n) && '=' !in n
  }

  predicate Digits(s: string) { forall c <- s :: IsDigit(c) }
  predicate Letters(s: string) { forall c <- s :: IsAlpha(c) }

  predicate Meant(p: Pattern, u: string) {
    match p
    case Literal(s) => u == s
    case OneOf(os) => u in os
    case Numeric(_) => Digits(u)
    case Alphabetic(_) => Letters(u)
    case _ => true
  }

  // A route means the requests that agree with it segment by segment.
  predicate Means(ps: seq<Pattern>, us: seq<string>) {
    |ps| == |us| && forall i :: 0 <= i < |ps| ==> Meant(ps[i], us[i])
  }

  // ---------- Segments of a written URI ----------

  function Tail(segments: seq<string>, slash: bool): string {
    if segments == [] then ""
    else if |segments| == 1 then segments[0] + (if slash then "/" else "")
    else segments[0] + "/" + Tail(segments[1..], slash)
  }

  function Uri(segments: seq<string>, slash: bool): string { "/" + Tail(segments, slash) }

  function AllWritten(ps: seq<Pattern>): (ws: seq<string>)
    ensures |ws| == |ps| && forall i :: 0 <= i < |ps| ==> ws[i] == Written(ps[i])
  {
    if ps == [] then [] else [Written(ps[0])] + AllWritten(ps[1..])
  }

  // A segment is followed by a slash unless it ends the URI.
  predicate Slashed(n: nat, i: nat, slash: bool) { i < n - 1 || slash }

  predicate Free(s: string, delimiters: string) {
    forall j :: 0 <= j < |s| ==> s[j] !in delimiters
  }

  lemma FirstDelimiterAfter(s: string, d: char, t: string, delimiters: string)
    requires d in delimiters && Free(s, delimiters)
    ensures FirstDelimiter(s + [d] + t, delimiters) == |s|
  {
    var data := s + [d] + t;
    assert data[|s|] == d;
    forall j | 0 <= j < |s| ensures data[j] !in delimiters {
      assert data[j] == s[j];
    }
  }

  // A URI's segments, each with the slash after it or not.
  predicate CutAs(ss: seq<Segment>, segments: seq<string>, slash: bool) {
    && |ss| == |segments|
    && forall i :: 0 <= i < |ss| ==> ss[i].body == segments[i] && ss[i].slashed == Slashed(|ss|, i, slash)
  }

  lemma CutOneMore(g: Segment, ss: seq<Segment>, segments: seq<string>, slash: bool)
    requires segments != [] && CutAs(ss, segments[1..], slash)
    requires g.body == segments[0] && g.slashed == Slashed(|segments|, 0, slash)
    ensures CutAs([g] + ss, segments, slash)
  {
  }

  lemma {:induction false} SegmentsOfTail(segments: seq<string>, slash: bool)
    requires forall i :: 0 <= i < |segments| ==> segments[i] != [] && Free(segments[i], "/")
    ensures CutAs(Segments(Tail(segments, slash)), segments, slash)
    decreases |segments|
  {
    hide Free, CutAs, Segments;
    if segments == [] {
      CutNothing(slash);
    } else {
      var s := segments[0];
      SegmentsOfTail(segments[1..], slash);
      if |segments| == 1 && !slash {
        assert Tail(segments, slash) == s;
        LastSegment(s);
        CutNothing(slash);
        CutOneMore(Segment(s, false, '\0'), Segments(""), segments, slash);
        assert [Segment(s, false, '\0')] + [] == [Segment(s, false, '\0')];
      } else {
        OneSegment(s, Tail(segments[1..], slash));
        assert Tail(segments, slash) == s + ['/'] + Tail(segments[1..], slash);
        CutOneMore(Segment(s, true, FirstOrNul(Tail(segments[1..], slash))),
                   Segments(Tail(segments[1..], slash)), segments, slash);
      }
    }
  }

  lemma CutNothing(slash: bool)
    ensures CutAs(Segments(""), [], slash) && Segments("") == []
  {
  }

  lemma LastSegment(s: string)
    requires s != [] && Free(s, "/")
    ensures Segments(s) == [Segment(s, false, '\0')]
  {
  }

  lemma OneSegment(s: string, rest: string)
    requires s != [] && Free(s, "/")
    ensures Segments(s + ['/'] + rest) == [Segment(s, true, FirstOrNul(rest))] + Segments(rest)
  {
    var data := s + ['/'] + rest;
    FirstDelimiterAfter(s, '/', rest, "/");
    assert data[..|s|] == s && data[|s| + 1..] == rest;
  }

  lemma SegmentsOfUri(segments: seq<string>, slash: bool)
    requires forall i :: 0 <= i < |segments| ==> segments[i] != [] && Free(segments[i], "/")
    ensures CutAs(Segments(Uri(segments, slash)), segments, slash)
  {
    hide CutAs;
    SegmentsOfTail(segments, slash);
    assert Uri(segments, slash)[1..] == Tail(segments, slash);
  }

  // ---------- What a compiled segment accepts ----------

  // The pieces a list of options is compiled to: each keeps the delimiter after it.
  function Kept(options: seq<string>): (ks: seq<string>)
    ensures |ks| == |options|
    ensures forall i :: 0 <= i < |ks| ==> ks[i] == options[i] + (if i == |ks| - 1 then "}" else ",")
  {
    if options == [] then []
    else [options[0] + (if |options| == 1 then "}" else ",")] + Kept(options[1..])
  }

  lemma {:induction false} OptionsCompile(options: seq<string>, after: string, next: char)
    requires options != [] && forall i :: 0 <= i < |options| ==> Free(options[i], ",}") && '\0' !in options[i]
    ensures Pieces(Join(options) + "}" + after, ",}", next) == Kept(options)
    decreases |options|
  {
    var data, o := Join(options) + "}" + after, options[0];
    if |options| == 1 {
      assert data == o + ['}'] + after;
      FirstDelimiterAfter(o, '}', after, ",}");
      assert data[..|o| + 1] == o + "}";
    } else {
      var rest := Join(options[1..]) + "}" + after;
      assert data == o + [','] + rest;
      FirstDelimiterAfter(o, ',', rest, ",}");
      assert data[..|o| + 1] == o + "," && data[|o| + 1..] == rest;
      OptionsCompile(options[1..], after, next);
    }
  }

  // What a route segment accepts in the compiled route: a literal only with the same slash
  // after it, a typed id only with none, an option only with its delimiter.
  predicate Rule(p: Pattern, routeSlashed: bool, u: string, slashed: bool) {
    match p
    case Literal(s) => u == s && slashed == routeSlashed
    case OneOf(os) => !slashed && u in Kept(os)
    case Numeric(_) => !slashed && Digits(u)
    case Alphabetic(_) => !slashed && Letters(u)
    case _ => true
  }

  // A compiled element accepts what the rule says.
  lemma LiteralRule(s: string, g: Segment, u: string, slashed: bool)
    requires ValidText(s) && g.body == s && ValidText(u)
    ensures Accepts(ElementOf(g), Segment(u, slashed, '\0').Text()) <==> Rule(Literal(s), g.slashed, u, slashed)
  {
    var t := if slashed then u + "/" else u;
    assert slashed ==> '/' == t[|u|];
    assert g.slashed ==> '/' == g.Text()[|s|];
    if g.Text() == t && g.slashed == slashed {
      assert s == g.Text()[..|s|] && u == t[..|u|];
    }
  }

  lemma OptionIsFree(o: string)
    requires ValidOption(o)
    ensures Free(o, ",}")
  {
    forall j | 0 <= j < |o| ensures o[j] !in ",}" {
      assert o[j] in o;
    }
  }

  lemma OneOfCompiles(os: seq<string>, g: Segment)
    requires Valid(OneOf(os)) && g.body == Written(OneOf(os))
    ensures Inner(g, ",}") == Kept(os)
  {
    hide Pieces, Join, Kept;
    var after := if g.slashed then "/" else "\0";
    forall i | 0 <= i < |os| ensures Free(os[i], ",}") && '\0' !in os[i] {
      assert ValidOption(os[i]);
      OptionIsFree(os[i]);
    }
    OptionsCompile(os, after, g.next);
    assert g.body[1..] + after == Join(os) + "}" + after;
  }

  lemma OneOfRule(os: seq<string>, g: Segment, u: string, slashed: bool)
    requires Valid(OneOf(os)) && g.body == Written(OneOf(os)) && ValidText(u)
    ensures Accepts(ElementOf(g), Segment(u, slashed, '\0').Text()) <==> Rule(OneOf(os), g.slashed, u, slashed)
  {
    hide Inner, Join, Restriction;
    OneOfCompiles(os, g);
    if slashed {
      assert (u + "/")[|u|] == '/';
      forall i | 0 <= i < |os| ensures '/' !in Kept(os)[i] {
        assert ValidOption(os[i]);
      }
    }
  }

  // The inner walk of an id: its name, and what is written after the equals sign.
  lemma IdCompiles(n: string, kind: string, g: Segment)
    requires '=' !in n && '\0' !in n && '=' !in kind && '\0' !in kind && kind != []
    requires g.body == ":" + n + "=" + kind
    ensures var ps := Inner(g, "="); |ps| == 2 && kind <= ps[1]
  {
    var after := if g.slashed then "/" else "\0";
    var data := g.body[1..] + after;
    assert data == n + ['='] + (kind + after);
    FirstDelimiterAfter(n, '=', kind + after, "=");
    assert data[|n| + 1..] == kind + after;
    var i := FirstDelimiter(kind + after, "=");
    assert Pieces(kind + after, "=", g.next) == [CString(kind + after + [g.next])];
    CStringKeeps(kind, after + [g.next]);
    assert kind + after + [g.next] == kind + (after + [g.next]);
  }

  lemma {:induction false} CStringKeeps(s: string, t: string)
    requires '\0' !in s
    ensures s <= CString(s + t)
  {
    if s != [] {
      CStringKeeps(s[1..], t);
      assert (s + t)[1..] == s[1..] + t;
    }
  }

  lemma NameCompiles(n: string, g: Segment)
    requires '=' !in n && g.body == ":" + n
    ensures |Inner(g, "=")| == 1
  {
  }

  lemma TypedRule(p: Pattern, g: Segment, u: string, slashed: bool)
    requires (p.Numeric? || p.Alphabetic?) && Valid(p) && g.body == Written(p) && ValidText(u)
    ensures Accepts(ElementOf(g), Segment(u, slashed, '\0').Text()) <==> Rule(p, g.slashed, u, slashed)
  {
    hide Inner, Pieces;
    var kind := if p.Numeric? then "number" else "string";
    IdCompiles(p.name, kind, g);
    assert Inner(g, "=")[1][0] == kind[0];
    assert ElementOf(g).mustBe == if p.Numeric? then Number else Text;
    var t := Segment(u, slashed, '\0').Text();
    assert slashed ==> t[|u|] == '/' && '/' in t;
  }

  // An id of any other type takes digits, as a number does.
  lemma OtherTypesTakeDigits(n: string, kind: string, g: Segment, u: string, slashed: bool)
    requires '=' !in n && '\0' !in n && '=' !in kind && '\0' !in kind
    requires |kind| >= 6 && !("number" <= kind) && !("string" <= kind)
    requires g.body == ":" + n + "=" + kind && ValidText(u)
    ensures Accepts(ElementOf(g), Segment(u, slashed, '\0').Text()) <==> !slashed && Digits(u)
  {
    hide Inner, Pieces;
    IdCompiles(n, kind, g);
    var piece := Inner(g, "=")[1];
    assert piece[..6] == kind[..6];
    assert ElementOf(g).mustBe == Nothing;
    var t := Segment(u, slashed, '\0').Text();
    assert slashed ==> t[|u|] == '/' && '/' in t;
  }

  lemma ElementRule(p: Pattern, g: Segment, u: string, slashed: bool)
    requires Valid(p) && g.body == Written(p) && ValidText(u)
    ensures Accepts(ElementOf(g), Segment(u, slashed, '\0').Text()) <==> Rule(p, g.slashed, u, slashed)
  {
    match p
    case Literal(s) => LiteralRule(s, g, u, slashed);
    case OneOf(os) => OneOfRule(os, g, u, slashed);
    case Named(n) => NameCompiles(n, g);
    case Numeric(_) => TypedRule(p, g, u, slashed);
    case Alphabetic(_) => TypedRule(p, g, u, slashed);
    case _ =>
  }

  // ---------- The exact match, and when it is the meaning ----------

  predicate ValidRoute(ps: seq<Pattern>) {
    ps != [] && forall i :: 0 <= i < |ps| ==> Valid(ps[i])
  }

  predicate ValidRequest(us: seq<string>) {
    us != [] && forall i :: 0 <= i < |us| ==> ValidText(us[i])
  }

  lemma WrittenSegment(p: Pattern)
    requires Valid(p)
    ensures Written(p) != [] && (!p.OneOf? ==> '/' !in Written(p))
  {
  }

  lemma {:induction false} JoinHasNoSlash(os: seq<string>)
    requires forall i :: 0 <= i < |os| ==> '/' !in os[i]
    ensures '/' !in Join(os)
  {
    if |os| > 1 {
      JoinHasNoSlash(os[1..]);
    }
  }

  lemma WrittenIsOneSegment(p: Pattern)
    requires Valid(p)
    ensures Written(p) != [] && Free(Written(p), "/")
  {
    if p.OneOf? {
      forall i | 0 <= i < |p.options| ensures '/' !in p.options[i] {
        assert ValidOption(p.options[i]);
      }
      JoinHasNoSlash(p.options);
    } else {
      WrittenSegment(p);
    }
  }

  lemma RawCompiles(g: Segment)
    requires ValidText(g.body)
    ensures ElementOf(g) == Element(Raw, [g.Text()], Nothing)
  {
  }

  // A request of raw segments compiles to their texts.
  lemma RequestCompiles(us: seq<string>, slash: bool)
    requires ValidRequest(us)
    ensures var es := Compile(Uri(us, slash));
            && Requestable(Uri(us, slash)) && AllRaw(es) && |es| == |us|
            && forall i :: 0 <= i < |us| ==>
                 es[i].strings == [Segment(us[i], Slashed(|us|, i, slash), '\0').Text()]
  {
    hide ElementOf, Slashed, Segments, Tail;
    assert forall i :: 0 <= i < |us| ==> ValidText(us[i]);
    SegmentsOfUri(us, slash);
    var ss, es := Segments(Uri(us, slash)), Compile(Uri(us, slash));
    forall i | 0 <= i < |us|
      ensures es[i].kind == Raw && es[i].strings == [Segment(us[i], Slashed(|us|, i, slash), '\0').Text()]
    {
      RawCompiles(ss[i]);
    }
  }

  lemma RouteCompiles(ps: seq<Pattern>, slash: bool)
    requires ValidRoute(ps)
    ensures var ss, es := Segments(Uri(AllWritten(ps), slash)), Compile(Uri(AllWritten(ps), slash));
            && |ss| == |es| == |ps|
            && forall i :: 0 <= i < |ps| ==>
                 && es[i] == ElementOf(ss[i])
                 && ss[i].body == Written(ps[i]) && ss[i].slashed == Slashed(|ps|, i, slash)
  {
    hide ElementOf, Slashed, Segments, Tail;
    var ws := AllWritten(ps);
    forall i | 0 <= i < |ws| ensures ws[i] != [] && Free(ws[i], "/") {
      WrittenIsOneSegment(ps[i]);
    }
    SegmentsOfUri(ws, slash);
  }

  // The router takes a route to match exactly when the segment counts agree and every
  // segment satisfies its rule.
  lemma MatchesByRule(ps: seq<Pattern>, slash: bool, us: seq<string>, slash': bool)
    requires ValidRoute(ps) && ValidRequest(us)
    ensures Requestable(Uri(us, slash')) && WellFormed(Uri(AllWritten(ps), slash))
    ensures Matches(Uri(us, slash'), Uri(AllWritten(ps), slash)) <==>
              && |ps| == |us|
              && forall i :: 0 <= i < |ps| ==>
                   Rule(ps[i], Slashed(|ps|, i, slash), us[i], Slashed(|us|, i, slash'))
  {
    hide ElementOf, Slashed, Segments, Rule, Accepts, Compile, Tail, AllRaw, Requestable, ValidText, Valid, Written;
    RequestCompiles(us, slash');
    RouteCompiles(ps, slash);
    var uri, route := Uri(us, slash'), Uri(AllWritten(ps), slash);
    var ss, request := Segments(route), Compile(uri);
    assert uri != "/" by { CompileNothing(); }
    if |ps| == |us| {
      forall i | 0 <= i < |ps|
        ensures Accepts(Compile(route)[i], request[i].strings[0]) <==>
                Rule(ps[i], Slashed(|ps|, i, slash), us[i], Slashed(|us|, i, slash'))
      {
        ElementRule(ps[i], ss[i], us[i], Slashed(|us|, i, slash'));
      }
    }
  }

  // Written so that the router takes it as meant, for requests that end in a slash or do not:
  // no list of options, typed ids only at the end and only without that slash, and the same
  // slash after a final literal.
  predicate Plain(ps: seq<Pattern>, slash: bool, final: bool)
    requires ps != []
  {
    && (forall i :: 0 <= i < |ps| ==> !ps[i].OneOf?)
    && (forall i :: 0 <= i < |ps| ==> ps[i].Numeric? || ps[i].Alphabetic? ==> i == |ps| - 1 && !final)
    && (ps[|ps| - 1].Literal? ==> slash == final)
  }

  // A request segment that agrees with a pattern.
  function Sample(p: Pattern): (u: string)
    requires Valid(p)
    ensures ValidText(u) && Meant(p, u)
  {
    match p
    case Literal(s) => s
    case OneOf(os) => assert ValidOption(os[0]); os[0]
    case Numeric(_) => "0"
    case _ => "x"
  }

  function Samples(ps: seq<Pattern>): (us: seq<string>)
    requires forall i :: 0 <= i < |ps| ==> Valid(ps[i])
    ensures |us| == |ps| && forall i :: 0 <= i < |ps| ==> us[i] == Sample(ps[i])
  {
    if ps == [] then [] else [Sample(ps[0])] + Samples(ps[1..])
  }

  lemma OptionIsNotKept(os: seq<string>, o: string)
    requires ValidOption(o)
    ensures o !in Kept(os)
  {
    forall i | 0 <= i < |os| ensures Kept(os)[i] != o {
      var k := Kept(os)[i];
      assert k[|os[i]|] in k && k[|os[i]|] in ",}";
    }
  }

  // The sample of a route that is not plain is meant but refused.
  lemma OddRouteRefusesItsSample(ps: seq<Pattern>, slash: bool, final: bool)
    requires ValidRoute(ps) && !Plain(ps, slash, final)
    ensures var us := Samples(ps);
            && ValidRequest(us) && Means(ps, us)
            && exists i :: 0 <= i < |ps| && !Rule(ps[i], Slashed(|ps|, i, slash), us[i], Slashed(|us|, i, final))
  {
    hide Rule, Slashed, Meant, ValidText, Valid, Written;
    var us, last := Samples(ps), |ps| - 1;
    if i :| 0 <= i < |ps| && (ps[i].OneOf? || ((ps[i].Numeric? || ps[i].Alphabetic?) && (i < last || final))) {
      SampleIsRefused(ps[i], Slashed(|ps|, i, slash), Slashed(|us|, i, final));
      SlashedWhere(|us|, i, final);
    } else {
      SampleIsRefused(ps[last], Slashed(|ps|, last, slash), Slashed(|us|, last, final));
      SlashedWhere(|ps|, last, slash);
      SlashedWhere(|us|, last, final);
    }
  }

  lemma SlashedWhere(n: nat, i: nat, slash: bool)
    requires i < n
    ensures Slashed(n, i, slash) == (i < n - 1 || slash)
  {
  }

  // The sample of a list of options, of a typed id before a slash, and of a literal with
  // another slash after it.
  lemma SampleIsRefused(p: Pattern, routeSlashed: bool, slashed: bool)
    requires Valid(p)
    ensures p.OneOf? || ((p.Numeric? || p.Alphabetic?) && slashed) || (p.Literal? && slashed != routeSlashed)
            ==> !Rule(p, routeSlashed, Sample(p), slashed)
  {
    hide ValidText, Written, Kept;
    if p.OneOf? {
      assert ValidOption(p.options[0]);
      OptionIsNotKept(p.options, p.options[0]);
    }
  }

  // Every request, of those that end in a slash or of those that do not, is answered as the
  // route's author means it ...
  ghost predicate TakenAsMeant(ps: seq<Pattern>, slash: bool, final: bool)
    requires ValidRoute(ps)
  {
    forall us | ValidRequest(us) :: TakenFor(ps, slash, us, final) <==> Means(ps, us)
  }

  predicate TakenFor(ps: seq<Pattern>, slash: bool, us: seq<string>, final: bool)
    requires ValidRoute(ps) && ValidRequest(us)
  {
    MatchesByRule(ps, slash, us, final);
    Matches(Uri(us, final), Uri(AllWritten(ps), slash))
  }

  lemma PlainRule(ps: seq<Pattern>, slash: bool, us: seq<string>, final: bool, i: nat)
    requires ValidRoute(ps) && Plain(ps, slash, final) && |us| == |ps| && i < |ps|
    ensures Rule(ps[i], Slashed(|ps|, i, slash), us[i], Slashed(|us|, i, final)) <==> Meant(ps[i], us[i])
  {
  }

  lemma PlainTakenAsMeant(ps: seq<Pattern>, slash: bool, us: seq<string>, final: bool)
    requires ValidRoute(ps) && ValidRequest(us) && Plain(ps, slash, final)
    ensures TakenFor(ps, slash, us, final) <==> Means(ps, us)
  {
    hide Rule, Slashed, Meant, Matches, Plain;
    MatchesByRule(ps, slash, us, final);
    if |ps| == |us| {
      forall i | 0 <= i < |ps|
        ensures Rule(ps[i], Slashed(|ps|, i, slash), us[i], Slashed(|us|, i, final)) <==> Meant(ps[i], us[i])
      {
        PlainRule(ps, slash, us, final, i);
      }
    }
  }

  // ... exactly if the route is plain.
  lemma TakenAsMeantExactlyIfPlain(ps: seq<Pattern>, slash: bool, final: bool)
    requires ValidRoute(ps)
    ensures TakenAsMeant(ps, slash, final) <==> Plain(ps, slash, final)
  {
    if Plain(ps, slash, final) {
      forall us | ValidRequest(us) ensures TakenFor(ps, slash, us, final) <==> Means(ps, us) {
        PlainTakenAsMeant(ps, slash, us, final);
      }
    } else {
      OddRouteRefusesItsSample(ps, slash, final);
      MatchesByRule(ps, slash, Samples(ps), final);
      assert !TakenFor(ps, slash, Samples(ps), final);
    }
  }

  // Whether a request ends in a slash makes no difference exactly if, besides, the route has
  // no typed id and does not end in a literal.
  lemma TakenEitherWayExactly(ps: seq<Pattern>, slash: bool)
    requires ValidRoute(ps)
    ensures TakenAsMeant(ps, slash, false) && TakenAsMeant(ps, slash, true) <==>
            && (forall i :: 0 <= i < |ps| ==> !ps[i].OneOf? && !ps[i].Numeric? && !ps[i].Alphabetic?)
            && !ps[|ps| - 1].Literal?
  {
    hide TakenAsMeant;
    TakenAsMeantExactlyIfPlain(ps, slash, false);
    TakenAsMeantExactlyIfPlain(ps, slash, true);
  }

  // A list of options refuses every one of its options: the route /{a,b} matches neither /a
  // nor /b.
  lemma ListedOptionIsRefused(os: seq<string>, o: string, slash: bool, final: bool)
    requires Valid(OneOf(os)) && o in os
    ensures var ps := [OneOf(os)];
            ValidRoute(ps) && ValidRequest([o]) && Means(ps, [o]) && !TakenFor(ps, slash, [o], final)
  {
    hide Rule, Matches, Kept;
    assert ValidOption(o);
    OptionIsRefused(os, o, Slashed(1, 0, slash), Slashed(1, 0, final));
    MatchesByRule([OneOf(os)], slash, [o], final);
    assert [o][0] == o && [OneOf(os)][0] == OneOf(os);
  }

  lemma OptionIsRefused(os: seq<string>, o: string, routeSlashed: bool, slashed: bool)
    requires ValidOption(o)
    ensures !Rule(OneOf(os), routeSlashed, o, slashed)
  {
    OptionIsNotKept(os, o);
  }
}
