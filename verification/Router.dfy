/** Route compilation and matching: src/router.c on the walker of vendor/zwalker.c, which
    leaves every delimiter on the piece it ends. */
module Router {
  import opened CStrings
  import opened Options
  import opened Walker

  datatype Kind = Single | Wildcard | Either | Id | Raw
  datatype MustBe = Anything | Number | Text | Nothing
  datatype Element = Element(kind: Kind, strings: seq<string>, mustBe: MustBe)

  // One piece of a URI between slashes: its text without the slash that ends it, if one
  // does, and the character after that.
  datatype Segment = Segment(body: string, slashed: bool, next: char)
  {
    function Text(): string { if slashed then body + "/" else body }
  }

  function FirstOrNul(s: string): char {
    if s == [] then '\0' else s[0]
  }

  // The pieces of a URI that do not start with a slash.
  function Segments(rest: string): (ss: seq<Segment>)
    ensures forall g <- ss :: g.body != [] && '/' !in g.body
    decreases |rest|
  {
    if rest == [] then []
    else
      var i := FirstDelimiter(rest, "/");
      if i == |rest| then [Segment(rest, false, '\0')]
      else if i == 0 then Segments(rest[1..])
      else [Segment(rest[..i], true, FirstOrNul(rest[i + 1..]))] + Segments(rest[i + 1..])
  }

  // The inner walk of an either or id segment.  A piece that no delimiter ends takes one
  // character too many.
  function Pieces(data: string, delimiters: string, next: char): (ps: seq<string>)
    ensures data != [] ==> ps != []
    decreases |data|
  {
    if data == [] then []
    else
      var i := FirstDelimiter(data, delimiters);
      if i == |data| then [CString(data + [next])]
      else [CString(data[..i + 1])] + if data[i] == '}' then [] else Pieces(data[i + 1..], delimiters, next)
  }

  function Inner(g: Segment, delimiters: string): (ps: seq<string>)
    requires g.body != []
    ensures ps != []
  {
    Pieces(g.body[1..] + (if g.slashed then "/" else "\0"), delimiters, g.next)
  }

  function Restriction(kind: Kind, strings: seq<string>): MustBe {
    if |strings| == 1 then Anything
    else if |strings| > 1 && kind == Id then
      if "number" <= strings[1] then Number else if "string" <= strings[1] then Text else Nothing
    else Nothing
  }

  function ElementOf(g: Segment): Element
    requires g.body != []
  {
    match g.body[0]
    case '?' => Element(Single, [], Nothing)
    case '*' => Element(Wildcard, [], Nothing)
    case '{' => Element(Either, Inner(g, ",}"), Restriction(Either, Inner(g, ",}")))
    case ':' => Element(Id, Inner(g, "="), Restriction(Id, Inner(g, "=")))
    case _ => Element(Raw, [CString(g.Text())], Nothing)
  }

  function Elements(ss: seq<Segment>): (es: seq<Element>)
    requires forall g <- ss :: g.body != []
    ensures |es| == |ss| && forall i :: 0 <= i < |ss| ==> es[i] == ElementOf(ss[i])
  {
    if ss == [] then [] else [ElementOf(ss[0])] + Elements(ss[1..])
  }

  function Compile(uri: string): seq<Element> {
    Elements(Segments(uri))
  }

  lemma PiecesToken(rest: string, delimiters: string, next: char)
    requires rest != []
    ensures var i, ps := FirstDelimiter(rest, delimiters), Pieces(rest, delimiters, next);
            ps == if i == |rest| then [CString(rest + [next])]
                  else [CString(rest[..i + 1])] + if rest[i] == '}' then [] else Pieces(rest[i + 1..], delimiters, next)
  {
    hide CString, FirstDelimiter;
  }

  // The walk over one either or id segment.
  method WalkPieces(data: string, delimiters: string, next: char) returns (strings: seq<string>)
    ensures strings == Pieces(data, delimiters, next)
  {
    hide Pieces, CString;
    strings := [];
    var pos := 0;
    PiecesOfNothing(delimiters, next);
    assert data[0..] == data;
    while pos < |data|
      invariant pos <= |data|
      invariant Pieces(data, delimiters, next) == strings + Pieces(data[pos..], delimiters, next)
    {
      PiecesToken(data[pos..], delimiters, next);
      var i := pos + FirstDelimiter(data[pos..], delimiters);
      if i == |data| {
        strings := strings + [CString(data[pos..] + [next])];
        return;
      }
      CutTail(data, pos, i + 1);
      strings := strings + [CString(data[pos..i + 1])];
      if data[i] == '}' {
        return;
      }
      pos := i + 1;
    }
    assert data[pos..] == "";
  }

  lemma PiecesOfNothing(delimiters: string, next: char)
    ensures Pieces("", delimiters, next) == []
  {
  }

  // One token further.
  lemma CompileToken(rest: string)
    requires rest != []
    ensures var i := FirstDelimiter(rest, "/");
            Compile(rest) ==
              if i == |rest| then [ElementOf(Segment(rest, false, '\0'))]
              else if i == 0 then Compile(rest[1..])
              else [ElementOf(Segment(rest[..i], true, FirstOrNul(rest[i + 1..])))] + Compile(rest[i + 1..])
  {
    hide ElementOf, FirstOrNul;
    var i := FirstDelimiter(rest, "/");
    if 0 < i < |rest| {
      var g, tail := Segment(rest[..i], true, FirstOrNul(rest[i + 1..])), Segments(rest[i + 1..]);
      assert ([g] + tail)[1..] == tail;
    }
  }

  // build_urimap
  method BuildUrimap(uri: string) returns (list: seq<Element>)
    ensures list == Compile(uri)
  {
    hide Compile, ElementOf, FirstOrNul;
    list := [];
    CompileNothing();
    if uri == "/" {
      return;
    }
    var pos := 0;
    assert uri[0..] == uri;
    while pos < |uri|
      invariant pos <= |uri|
      invariant Compile(uri) == list + Compile(uri[pos..])
    {
      CompileToken(uri[pos..]);
      var i := pos + FirstDelimiter(uri[pos..], "/");
      if i == |uri| {
        var e := BuildElement(Segment(uri[pos..], false, '\0'));
        list := list + [e];
        return;
      }
      CutTail(uri, pos, i);
      CutTail(uri, pos, i + 1);
      if uri[pos] != '/' {
        var e := BuildElement(Segment(uri[pos..i], true, FirstOrNul(uri[i + 1..])));
        list := list + [e];
      }
      pos := i + 1;
    }
    assert uri[pos..] == "";
  }

  lemma CompileNothing()
    ensures Compile("") == Compile("/") == Compile("//") == []
  {
    assert "//"[1..] == "/" && "/"[1..] == "";
    CompileToken("//");
    CompileToken("/");
  }

  // The part of build_urimap that fills in one element.
  method BuildElement(g: Segment) returns (e: Element)
    requires g.body != []
    ensures e == ElementOf(g)
  {
    var c := g.body[0];
    if c == '?' {
      return Element(Single, [], Nothing);
    } else if c == '*' {
      return Element(Wildcard, [], Nothing);
    } else if c == '{' || c == ':' {
      var data := g.body[1..] + (if g.slashed then "/" else "\0");
      var strings := WalkPieces(data, if c == '{' then ",}" else "=", g.next);
      var kind := if c == '{' then Either else Id;
      e := Element(kind, strings, Nothing);
      if |strings| == 1 {
        e := e.(mustBe := Anything);
      } else if |strings| > 1 && kind == Id {
        if "number" <= strings[1] {
          e := e.(mustBe := Number);
        } else if "string" <= strings[1] {
          e := e.(mustBe := Text);
        }
      }
    } else {
      return Element(Raw, [CString(g.Text())], Nothing);
    }
  }

  // ---------- Matching ----------

  const NUMS := "0123456789"
  const LOWER := "abcdefghijklmnopqrstuvwxyz"
  const UPPER := "ABCDEFGHIJKLMNOPQRSTUVWXYZ"

  predicate IsDigit(c: char) { '0' <= c <= '9' }
  predicate IsAlpha(c: char) { 'a' <= c <= 'z' || 'A' <= c <= 'Z' }

  // The ranges are the characters the program lists.
  lemma DigitsAreListed(c: char)
    ensures IsDigit(c) <==> c in NUMS
  {
    if IsDigit(c) { assert NUMS[c as int - 48] == c; }
  }

  lemma LowerCaseIsListed(c: char)
    ensures 'a' <= c <= 'z' <==> c in LOWER
  {
    if 'a' <= c <= 'z' { assert LOWER[c as int - 97] == c; }
  }

  lemma UpperCaseIsListed(c: char)
    ensures 'A' <= c <= 'Z' <==> c in UPPER
  {
    if 'A' <= c <= 'Z' { assert UPPER[c as int - 65] == c; }
  }

  lemma LettersAreListed(c: char)
    ensures IsAlpha(c) <==> c in LOWER + UPPER
  {
    LowerCaseIsListed(c);
    UpperCaseIsListed(c);
  }

  // A route element accepts the text of a request segment.
  predicate Accepts(e: Element, text: string) {
    match e.kind
    case Single => true
    case Wildcard => true
    case Either => text in e.strings
    case Id => e.mustBe == Anything || forall c <- text :: if e.mustBe == Text then IsAlpha(c) else IsDigit(c)
    case Raw => e.strings == [text]
  }

  predicate AllRaw(es: seq<Element>) {
    forall e <- es :: e.kind == Raw && |e.strings| == 1
  }

  predicate Fits(route: seq<Element>, request: seq<Element>)
    requires AllRaw(request)
  {
    |route| == |request| && forall i :: 0 <= i < |route| ==> Accepts(route[i], request[i].strings[0])
  }

  // compare_urimaps, of a compiled route and a compiled request of raw segments.
  method CompareUrimaps(route: seq<Element>, request: seq<Element>) returns (same: bool)
    requires AllRaw(request) && (route != [] || request != [])
    ensures same <==> Fits(route, request)
  {
    if |route| != |request| {
      return false;
    }
    for i := 0 to |route|
      invariant forall j :: 0 <= j < i ==> Accepts(route[j], request[j].strings[0])
    {
      var text, e := request[i].strings[0], route[i];
      match e.kind {
        case Single =>
        case Wildcard =>
        case Either =>
          var matched := false;
          for k := 0 to |e.strings|
            invariant matched <==> text in e.strings[..k]
          {
            if |text| == |e.strings[k]| && text == e.strings[k] {
              matched := true;
            }
          }
          assert e.strings[..|e.strings|] == e.strings;
          if !matched {
            return false;
          }
        case Id =>
          if e.mustBe != Anything {
            for k := 0 to |text|
              invariant forall c <- text[..k] :: if e.mustBe == Text then IsAlpha(c) else IsDigit(c)
            {
              if !(if e.mustBe == Text then IsAlpha(text[k]) else IsDigit(text[k])) {
                assert text[k] in text;
                return false;
              }
            }
            assert text[..|text|] == text;
          }
        case Raw =>
          if e.strings != [text] {
            return false;
          }
      }
    }
    return true;
  }

  // A URI the resolvers handle: "/" or raw segments after a slash.
  predicate Requestable(uri: string) {
    uri == "/" || ("/" <= uri && Compile(uri) != [] && AllRaw(Compile(uri)))
  }

  predicate WellFormed(route: string) {
    route == "/" || route == "//" || Compile(route) != []
  }

  // "/" is answered by the routes "/" and "//", and only by them.
  predicate Matches(uri: string, route: string)
    requires Requestable(uri)
  {
    if uri == "/" then route == "/" || route == "//" else Fits(Compile(route), Compile(uri))
  }

  // The two ways of writing the root are the routes without a segment, and "/" is the request
  // without one: a match is always that of the compiled segments.
  lemma MatchIsOfSegments(uri: string, route: string)
    requires Requestable(uri) && WellFormed(route)
    ensures Matches(uri, route) <==> Fits(Compile(route), Compile(uri))
    ensures Compile(route) == [] <==> route == "/" || route == "//"
    ensures Compile(uri) == [] <==> uri == "/"
  {
    hide Compile, Accepts;
    CompileNothing();
  }

  // route_resolve
  method RouteResolve(uri: string, rname: string) returns (found: Option<string>)
    requires Requestable(uri) && WellFormed(rname)
    ensures found == if Matches(uri, rname) then Some(rname) else None
  {
    var urimap := BuildUrimap(uri);
    if |rname| == 1 && |uri| == 1 && uri[0] == '/' && rname[0] == '/' {
      return Some(rname);
    } else if |rname| == 2 && |uri| == 1 && rname[0] == '/' && rname[1] == '/' {
      return if uri[0] == '/' then Some(rname) else None;
    }
    var cmap := BuildUrimap(rname);
    CompileNothing();
    var same := CompareUrimaps(cmap, urimap);
    return if same then Some(rname) else None;
  }

  // route_complex_resolve: the first route that route_resolve would find; none without a URI.
  method RouteComplexResolve(uri: Option<string>, routes: seq<string>) returns (found: Option<nat>)
    requires uri.Some? ==> Requestable(uri.value) && forall i :: 0 <= i < |routes| ==> WellFormed(routes[i])
    ensures uri.None? ==> found.None?
    ensures uri.Some? && found.None? ==> forall i :: 0 <= i < |routes| ==> !Matches(uri.value, routes[i])
    ensures uri.Some? && found.Some? ==>
              && found.value < |routes| && Matches(uri.value, routes[found.value])
              && forall i :: 0 <= i < found.value ==> !Matches(uri.value, routes[i])
  {
    hide Compile, Fits;
    if uri.None? {
      return None;
    }
    var u := uri.value;
    var urimap := BuildUrimap(u);
    CompileNothing();
    for i := 0 to |routes|
      invariant forall j :: 0 <= j < i ==> !Matches(u, routes[j])
    {
      var rname := routes[i];
      if |rname| == 1 && |u| == 1 && u[0] == '/' && rname[0] == '/' {
        return Some(i);
      } else if |rname| == 2 && |u| == 1 && rname[0] == '/' && rname[1] == '/' {
        if u[0] == '/' {
          return Some(i);
        }
        return None;
      }
      var cmap := BuildUrimap(rname);
      MatchIsOfSegments(u, rname);
      var same := CompareUrimaps(cmap, urimap);
      if same {
        return Some(i);
      }
    }
    return None;
  }
}
