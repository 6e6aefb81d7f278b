/** srv_response and srv_proc of src/server/server.c: one request from the first byte to the
    last, driven by the stage of its connection. */
module ServerLifecycle {
  import opened Hosts
  import opened HttpRead
  import opened HttpWrite
  import opened Options

  // Why an error page is sent instead of a filter's answer.
  datatype Fault =
    | BadRequest(status: int)
    | NoHostHeader
    | UnknownHost(hostname: string)
    | NoFilter(name: string)
    | UnknownFilter(filter: string)
    | BadDirectory(name: string)
  {
    function Status(): int {
      match this
      case BadRequest(s) => s
      case NoHostHeader => 400
      case UnknownHost(_) => 404
      case _ => 500
    }
  }

  // The server's configuration, with the filters, the file system and the error page as
  // functions of what they are given.
  datatype Site = Site(
    hosts: seq<Host>,
    filters: seq<string>,
    usable: Host -> bool,
    filter: (Host, string, seq<Byte>) -> Response,
    page: (int, Fault) -> Response)

  datatype Verdict = Serve(host: Host) | Refuse(fault: Fault)

  // Who is to answer a request for this host.
  function Judge(site: Site, hostname: Option<string>): Verdict {
    if hostname.None? then Refuse(NoHostHeader)
    else
      match Answering(site.hosts, BareName(hostname.value))
      case None => Refuse(UnknownHost(hostname.value))
      case Some(h) =>
        if h.filter.None? then Refuse(NoFilter(h.name))
        else if h.filter.value !in site.filters then Refuse(UnknownFilter(h.filter.value))
        else if h.dir.Some? && !site.usable(h) then Refuse(BadDirectory(h.name))
        else Serve(h)
  }

  // The first host that answers, if it is able to; otherwise status 400 without a host
  // header, 404 if no host answers, and 500 with what is wrong with the one that does.
  lemma Judgement(site: Site, hostname: Option<string>)
    ensures match Judge(site, hostname)
            case Serve(h) =>
              && hostname.Some? && Able(site, h)
              && exists i :: IsFirstAnswer(site.hosts, i, BareName(hostname.value)) && site.hosts[i] == h
            case Refuse(f) =>
              if hostname.None? then f == NoHostHeader && f.Status() == 400
              else if forall h <- site.hosts :: !Answers(h, BareName(hostname.value))
              then f == UnknownHost(hostname.value) && f.Status() == 404
              else
                && f.Status() == 500
                && exists i :: IsFirstAnswer(site.hosts, i, BareName(hostname.value))
                               && !Able(site, site.hosts[i]) && Complaint(site, site.hosts[i], f)
  {
    hide BareName, Answers;
    if hostname.Some? {
      var found := Answering(site.hosts, BareName(hostname.value));
      if found.Some? {
        var i :| IsFirstAnswer(site.hosts, i, BareName(hostname.value)) && site.hosts[i] == found.value;
        assert site.hosts[i] in site.hosts;
      }
    }
  }

  // What can be wrong with the host that answers.
  predicate Complaint(site: Site, h: Host, f: Fault) {
    match f
    case NoFilter(name) => name == h.name && h.filter.None?
    case UnknownFilter(filter) => h.filter == Some(filter) && filter !in site.filters
    case BadDirectory(name) => name == h.name && h.dir.Some? && !site.usable(h)
    case _ => false
  }

  predicate Able(site: Site, h: Host) {
    h.filter.Some? && h.filter.value in site.filters && (h.dir.Some? ==> site.usable(h))
  }

  function Page(site: Site, f: Fault): Response {
    site.page(f.Status(), f)
  }

  function Reply(site: Site, req: Parsed, body: seq<Byte>): Response
    requires req.Header?
  {
    match Judge(site, req.host)
    case Serve(h) => site.filter(h, req.path, body)
    case Refuse(f) => Page(site, f)
  }

  // The response to a request, from its bytes alone.
  function AnswerTo(incoming: seq<Byte>, p: Parsers, site: Site): Option<Response> {
    var req := ExpectedHeader(incoming, p);
    match Expected(incoming, p)
    case Rejected(s) => Some(Page(site, BadRequest(s)))
    case NoBody => if req.Header? then Some(Reply(site, req, [])) else None
    case Complete(body) => if req.Header? then Some(Reply(site, req, body)) else None
    case Unfinished => None
  }

  // srv_check_filter
  method CheckFilter(filters: seq<string>, name: string) returns (found: bool)
    ensures found <==> name in filters
  {
    for i := 0 to |filters|
      invariant name !in filters[..i]
    {
      if filters[i] == name {
        return true;
      }
    }
    return false;
  }

  // srv_proc: the stage moves on first, whatever comes of the request.
  method Process(c: Connection, site: Site) returns (res: Response)
    requires c.Valid() && c.parsed.Header?
    modifies c`stage
    ensures c.stage == Write && res == Reply(site, c.parsed, c.Msg())
    ensures match Judge(site, c.parsed.host)
            case Serve(h) => res == site.filter(h, c.parsed.path, c.Msg())
            case Refuse(f) => res == site.page(f.Status(), f)
  {
    c.stage := Write;
    if c.parsed.host.None? {
      return Page(site, NoHostHeader);
    }
    var config := FindHost(site.hosts, c.parsed.host.value);
    if config.None? {
      return Page(site, UnknownHost(c.parsed.host.value));
    }
    var host := config.value;
    if host.filter.None? {
      return Page(site, NoFilter(host.name));
    }
    var supported := CheckFilter(site.filters, host.filter.value);
    if !supported {
      return Page(site, UnknownFilter(host.filter.value));
    }
    if host.dir.Some? && !site.usable(host) {
      return Page(site, BadDirectory(host.name));
    }
    return site.filter(host, c.parsed.path, c.Msg());
  }

  datatype Phase = PrePhase | ReadPhase | ProcPhase | WritePhase | PostPhase

  function Rank(s: Stage): nat {
    match s
    case Dormant => 0 case Init => 1 case Pre => 2 case Read => 3
    case Proc => 4 case Write => 5 case Post => 6 case Destroy => 7
  }

  predicate Forward(stages: seq<Stage>) {
    forall i, j :: 0 <= i < j < |stages| ==> Rank(stages[i]) <= Rank(stages[j])
  }

  // The phases of one connection: processing and writing happen at most once each, in this
  // order, and the connection is always released, once, at the end.
  function Phases(cut: Cut, processed: bool): seq<Phase> {
    [PrePhase, ReadPhase] + (if processed then [ProcPhase] else [])
    + (if cut == Failed then [] else [WritePhase]) + [PostPhase]
  }

  // ---------- What is due for a request ----------

  // A request with a header that fits the preamble and all of its body: the filter of the
  // host that serves it is given that host, the path and the body, nothing else is, and a
  // request nobody serves gets the page of its fault.
  lemma AnswerByParts(header: seq<Byte>, rest: seq<Byte>, p: Parsers, site: Site)
    requires |header| + 4 <= PREAMBLE_SIZE && HeaderEnd(header + [13, 10, 13]) == -1
    requires var req := p.header(header);
             && req.Header?
             && (req.hasBody ==> req.clen <= READ_MAX && req.clen <= |rest| && p.content(rest[..req.clen]))
    ensures var req := p.header(header);
            var body := if req.hasBody then rest[..req.clen] else [];
            AnswerTo(header + [13, 10, 13, 10] + rest, p, site) ==
              match Judge(site, req.host)
              case Serve(h) => Some(site.filter(h, req.path, body))
              case Refuse(f) => Some(site.page(f.Status(), f))
  {
    hide Expected, ExpectedHeader, Judge;
    ReadingByParts(header, rest, p);
  }

  // What cannot be read as a request gets the page of status 500.
  lemma AnswerToBadRequest(header: seq<Byte>, rest: seq<Byte>, p: Parsers, site: Site)
    requires |header| + 4 <= PREAMBLE_SIZE && HeaderEnd(header + [13, 10, 13]) == -1
    requires match p.header(header)
             case BadHeader => true
             case Header(hasBody, clen, _, _) =>
               hasBody && (clen > READ_MAX || (clen <= |rest| && !p.content(rest[..clen])))
    ensures AnswerTo(header + [13, 10, 13, 10] + rest, p, site) == Some(site.page(500, BadRequest(500)))
  {
    hide Expected, ExpectedHeader;
    ReadingByParts(header, rest, p);
  }

  // Every call does something: nothing is refused, fails or ends early.
  ghost predicate Flawless(env: Schedule) {
    forall i: nat :: env(i).event.Ready? && env(i).event.bytes > 0
  }

  // Whatever happens, a connection is prepared first, then read, and released last, each once;
  // processing and writing happen at most once, writing unless the read failed, and in this
  // order.
  lemma PhasesInOrder(cut: Cut)
    ensures Phases(cut, true) ==
            if cut == Failed then [PrePhase, ReadPhase, ProcPhase, PostPhase]
            else [PrePhase, ReadPhase, ProcPhase, WritePhase, PostPhase]
    ensures Phases(cut, false) ==
            if cut == Failed then [PrePhase, ReadPhase, PostPhase] else [PrePhase, ReadPhase, WritePhase, PostPhase]
  {
  }

  // The part of srv_response that reads the request and finds what is due for it.  first is
  // the stage that reading ended in.
  method Obtain(c: Connection, env: Schedule, p: Parsers, site: Site, rtimeout: nat)
    returns (cut: Cut, res: Response, first: Stage)
    requires c.Valid() && ClockAdvances(env) && NoExcess(c.incoming, p) && c.taken == 0 && c.clen == 0
    modifies c, c.preamble
    ensures c.calls >= old(c.calls) && c.sent == old(c.sent)
    ensures c.stage == (if cut == Failed then Post else Write) && first in {Proc, Write, Post}
    ensures first == Post <==> cut == Failed
    ensures cut == NotCut ==>
              && AnswerTo(c.incoming, p, site) == Some(res)
              && (first == Proc <==> Expected(c.incoming, p).NoBody? || Expected(c.incoming, p).Complete?)
    ensures cut == TimedOut ==> first == Write && res == site.page(408, BadRequest(408))
    ensures Flawless(env) && !Expected(c.incoming, p).Unfinished? ==> cut == NotCut
  {
    hide Expected, ExpectedHeader, NoExcess, ClockAdvances, Reply, Judge;
    var read;
    read, cut := c.ReadRequest(env, p, rtimeout);
    first := c.stage;
    res := Page(site, BadRequest(c.status));
    if c.stage == Proc {
      res := Process(c, site);
    }
  }

  // srv_response.  The bytes the peer gets depend on the bytes it sent and on nothing else:
  // not on how either were cut up, unless a failure, a timeout or the peer ended the
  // exchange, and then they still are a prefix of what was due.  A response that is due is
  // written unless a send fails or comes too late; where no call falters, all of it arrives.
  method Respond(c: Connection, env: Schedule, p: Parsers, site: Site, pre: bool, rtimeout: nat, wtimeout: nat)
    returns (ok: bool, cut: Cut, written: bool, phases: seq<Phase>, stages: seq<Stage>, ghost from: nat)
    requires c.Valid() && ClockAdvances(env) && NoExcess(c.incoming, p)
    requires c.taken == 0 && c.clen == 0 && c.sent == []
    modifies c, c.preamble
    ensures ok == pre && Forward(stages) && |stages| > 0 && stages[0] == Init && stages[|stages| - 1] == c.stage
    ensures !pre ==> phases == [PrePhase] && c.stage == Init && c.sent == []
    ensures pre ==> c.stage == Post && (phases == Phases(cut, true) || phases == Phases(cut, false))
    ensures pre && cut == Failed ==> !written && c.sent == [] && phases == Phases(cut, false)
    ensures pre && cut != Failed && !written ==>
              from >= old(c.calls) && (FailedAt(env, from, c.calls) || LateAt(env, from, c.calls, wtimeout))
    ensures pre && cut == NotCut ==>
              var due := AnswerTo(c.incoming, p, site);
              && due.Some?
              && phases == Phases(cut, Expected(c.incoming, p).NoBody? || Expected(c.incoming, p).Complete?)
              && (NoZeroSend(env) ==> c.sent <= Payload(due.value))
              && (NoZeroSend(env) && Proper(due.value) && written ==> c.sent == Payload(due.value))
    ensures pre && cut == TimedOut ==>
              && phases == Phases(cut, false)
              && (NoZeroSend(env) ==> c.sent <= Payload(site.page(408, BadRequest(408))))
    ensures pre && Flawless(env) && !Expected(c.incoming, p).Unfinished? ==>
              var due := AnswerTo(c.incoming, p, site);
              cut == NotCut && written && due.Some? && (Proper(due.value) ==> c.sent == Payload(due.value))
  {
    hide Expected, NoExcess, ClockAdvances, AnswerTo, Payload, Proper, NoZeroSend, Flawless, FailedAt, LateAt;
    c.stage := Init;
    ok, cut, written, phases, stages, from := pre, NotCut, false, [PrePhase], [c.stage], c.calls;
    if !pre {
      return;
    }
    var res, first;
    cut, res, first := Obtain(c, env, p, site, rtimeout);
    phases, stages, from := phases + [ReadPhase], stages + [first], c.calls;
    if first == Proc {
      phases, stages := phases + [ProcPhase], stages + [c.stage];
    }
    if c.stage == Write {
      written := Deliver(c, env, res, wtimeout);
      phases, stages := phases + [WritePhase], stages + [c.stage];
    }
    phases := phases + [PostPhase];
    FlawlessSends(env, from, c.calls, wtimeout);
  }

  lemma FlawlessSends(env: Schedule, from: nat, to: nat, wtimeout: nat)
    ensures Flawless(env) ==> NoZeroSend(env) && !FailedAt(env, from, to) && !LateAt(env, from, to, wtimeout)
  {
  }
}
