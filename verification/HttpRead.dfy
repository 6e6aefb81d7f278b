/** read_notls of src/ctx/ctx-http.c: a request reassembled from whatever pieces the socket
    delivers, against an adversarial schedule of reads, refusals and failures. */
module HttpRead {
  import opened Options

  type Byte = b: int | 0 <= b < 256

  const PREAMBLE_SIZE := 2048
  const READ_SIZE := 4096
  const READ_MAX := 8388608
  const NANOS := 1_000_000_000
  const TIMEOUT_STATUS := 408
  const ERROR_STATUS := 500

  datatype Stage = Dormant | Init | Pre | Read | Proc | Write | Post | Destroy

  // What the kernel does at one call, and when the call is made, in nanoseconds.
  datatype Event = Ready(bytes: nat) | WouldBlock | Closed | Broken
  datatype Call = Call(now: nat, event: Event)

  type Schedule = nat -> Call

  // Time passes between any two calls.
  ghost predicate ClockAdvances(env: Schedule) {
    forall i: nat :: env(i).now < env(i + 1).now
  }

  lemma {:induction false} ClockForward(env: Schedule, i: nat, j: nat)
    requires ClockAdvances(env) && i <= j
    ensures env(i).now <= env(j).now
    decreases j
  {
    if i < j {
      ClockForward(env, i, j - 1);
      assert env(j - 1).now < env(j - 1 + 1).now;
    }
  }

  function Seconds(t: nat): nat { t / NANOS }

  // A deadline in whole seconds, and the time left to it in nanoseconds.
  lemma BeforeTheDeadline(now: nat, deadline: nat)
    ensures Seconds(now) < deadline <==> now < deadline * NANOS
  {
  }

  lemma LaterSeconds(a: nat, b: nat)
    requires a <= b
    ensures Seconds(a) <= Seconds(b)
  {
  }

  // http_parse_header as the server sees it: whether a body is expected, how long it is, the
  // host asked for and the path.
  datatype Parsed = BadHeader | Header(hasBody: bool, clen: nat, host: Option<string>, path: string)

  // The parsers of the HTTP library.
  datatype Parsers = Parsers(header: seq<Byte> -> Parsed, content: seq<Byte> -> bool)

  // A blank line, CR LF CR LF, starts at offset j.
  predicate BlankAt(bs: seq<Byte>, j: int) {
    0 <= j && j + 4 <= |bs| && bs[j] == 13 && bs[j + 1] == 10 && bs[j + 2] == 13 && bs[j + 3] == 10
  }

  // The offset of the first blank line from i on, or -1: http_header_received.
  function BlankFrom(bs: seq<Byte>, i: nat): (h: int)
    ensures h == -1 || (i <= h && BlankAt(bs, h))
    ensures forall j :: i <= j && (h == -1 || j < h) ==> !BlankAt(bs, j)
    decreases |bs| - i
  {
    if i + 4 > |bs| then -1 else if BlankAt(bs, i) then i else BlankFrom(bs, i + 1)
  }

  function HeaderEnd(bs: seq<Byte>): (h: int)
    ensures h == -1 || BlankAt(bs, h)
    ensures forall j :: 0 <= j && (h == -1 || j < h) ==> !BlankAt(bs, j)
  {
    BlankFrom(bs, 0)
  }

  // Why a read ended before the request was there.
  datatype Cut = NotCut | ClosedEarly | Failed | TimedOut

  // What a request is read as, from its bytes alone.
  datatype Reading =
    | Rejected(status: int)     // an error response is to be written
    | NoBody                    // ready for processing, no content
    | Complete(body: seq<Byte>) // ready for processing with this content
    | Unfinished                // the peer has not sent enough

  function Expected(incoming: seq<Byte>, p: Parsers): Reading {
    var h := HeaderEnd(incoming[..Min(PREAMBLE_SIZE, |incoming|)]);
    if h == -1 then (if |incoming| < PREAMBLE_SIZE then Unfinished else Rejected(ERROR_STATUS))
    else
      match p.header(incoming[..h])
      case BadHeader => Rejected(ERROR_STATUS)
      case Header(hasBody, clen, _, _) =>
        if hasBody then ExpectedBody(incoming, p, h, clen) else NoBody
  }

  function ExpectedBody(incoming: seq<Byte>, p: Parsers, h: nat, clen: nat): Reading {
    if clen > READ_MAX then Rejected(ERROR_STATUS)
    else if |incoming| < h + 4 + clen then Unfinished
    else
      var body := incoming[h + 4..h + 4 + clen];
      if p.content(body) then Complete(body) else Rejected(ERROR_STATUS)
  }

  // What the header of the request says.
  function ExpectedHeader(incoming: seq<Byte>, p: Parsers): Parsed {
    var h := HeaderEnd(incoming[..Min(PREAMBLE_SIZE, |incoming|)]);
    if h >= 0 then p.header(incoming[..h]) else BadHeader
  }

  // The peer sends no byte beyond the length it announces.
  predicate NoExcess(incoming: seq<Byte>, p: Parsers) {
    var h := HeaderEnd(incoming[..Min(PREAMBLE_SIZE, |incoming|)]);
    h >= 0 && p.header(incoming[..h]).Header? && p.header(incoming[..h]).hasBody ==>
      |incoming| <= h + 4 + p.header(incoming[..h]).clen
  }

  function Min(a: nat, b: nat): nat { if a < b then a else b }

  // Once the blank line is there, more bytes do not move it.
  lemma HeaderEndStable(bs: seq<Byte>, n: nat)
    requires n <= |bs| && HeaderEnd(bs[..n]) >= 0
    ensures HeaderEnd(bs) == HeaderEnd(bs[..n])
  {
    var h, h' := HeaderEnd(bs[..n]), HeaderEnd(bs);
    assert BlankAt(bs, h);
    if h' < h { assert BlankAt(bs[..n], h'); }
  }

  lemma Adjoin(bs: seq<Byte>, i: nat, j: nat, k: nat)
    requires i <= j <= k <= |bs|
    ensures bs[i..k] == bs[i..j] + bs[j..k]
  {
  }

  // So the preamble, however full, has it where it was first seen.
  lemma HeaderEndInPreamble(bs: seq<Byte>, a: nat, b: nat)
    requires a <= PREAMBLE_SIZE && a <= b <= |bs| && HeaderEnd(bs[..a]) >= 0
    ensures HeaderEnd(bs[..Min(PREAMBLE_SIZE, b)]) == HeaderEnd(bs[..a])
  {
    hide HeaderEnd;
    var seen := bs[..Min(PREAMBLE_SIZE, b)];
    assert seen[..a] == bs[..a];
    HeaderEndStable(seen, a);
  }

  // What one recv may deliver into room for size bytes when left more are to come; -1 is a
  // refusal or a failure.
  function Deliverable(e: Event, size: nat, left: nat): (n: int)
    ensures -1 <= n <= size && n <= left
    ensures n == 0 ==> e.Closed? || size == 0
    ensures n == -1 ==> e.Ready? || e.WouldBlock? || e.Broken?
  {
    match e
    case Ready(k) => if size == 0 then 0 else if left == 0 then -1 else Min(if k == 0 then 1 else k, Min(size, left))
    case Closed => 0
    case _ => -1
  }

  class Connection {
    const incoming: seq<Byte>   // all the peer sends
    const preamble: array<Byte>
    var taken: nat              // bytes received so far
    var calls: nat              // socket calls made so far
    var stage: Stage
    var status: int             // status of an error response, 0 if none is set
    var content: array<Byte>    // req->msg points into this ...
    var contentAt: nat          // ... at this offset
    var clen: nat               // req->clen
    var parsed: Parsed          // what the header said, once it is read
    var sent: seq<Byte>         // all bytes sent to the peer
    ghost var heard: nat        // when bytes last arrived

    ghost predicate Valid()
      reads this
    {
      preamble.Length == PREAMBLE_SIZE && taken <= |incoming| && contentAt + clen <= content.Length
    }

    // The content of the request: req->clen bytes at req->msg.
    function Msg(): seq<Byte>
      requires Valid()
      reads this, content
    {
      content[contentAt..contentAt + clen]
    }

    constructor (incoming: seq<Byte>)
      ensures Valid() && this.incoming == incoming && taken == 0 && calls == 0
      ensures stage == Dormant && status == 0 && sent == [] && fresh(preamble)
    {
      this.incoming := incoming;
      taken, calls, stage, status, contentAt, clen, parsed, sent, heard := 0, 0, Dormant, 0, 0, 0, BadHeader, [], 0;
      preamble := new Byte[PREAMBLE_SIZE];
      content := new Byte[0];
    }

    // recv() into buf, which already holds the at bytes received from position lo on, with
    // room for size more.
    method Recv(env: Schedule, buf: array<Byte>, ghost lo: nat, at: nat, size: nat) returns (rd: int, event: Event)
      requires Valid() && lo + at == taken && at + Min(size, |incoming| - taken) <= buf.Length
      requires buf[..at] == incoming[lo..taken]
      modifies this`taken, this`calls, this`heard, buf
      ensures Valid() && calls == old(calls) + 1 && event == env(old(calls)).event
      ensures heard == if rd > 0 then env(old(calls)).now else old(heard)
      ensures rd == Deliverable(event, size, |incoming| - old(taken))
      ensures taken == old(taken) + if rd > 0 then rd else 0
      ensures buf[..taken - lo] == incoming[lo..taken]
    {
      event := env(calls).event;
      calls := calls + 1;
      rd := Deliverable(event, size, |incoming| - taken);
      if rd > 0 {
        forall k | 0 <= k < rd { buf[at + k] := incoming[taken + k]; }
        assert buf[..at + rd] == old(buf[..at]) + incoming[taken..taken + rd];
        taken, heard := taken + rd, env(calls - 1).now;
        Adjoin(incoming, lo, taken - rd, taken);
      }
    }

    method Reject(s: int)
      modifies this`stage, this`status
      ensures stage == Write && status == s
    {
      stage, status := Write, s;
    }

    // What a read that delivered nothing leads to: a failure ends it, and so does a refusal
    // when the idle time is over.
    method NotReady(event: Event, now: nat, timer: nat, rtimeout: nat) returns (cut: Cut)
      modifies this`stage, this`status
      ensures cut in {NotCut, Failed, TimedOut}
      ensures cut == NotCut ==>
                && now < (Seconds(timer) + rtimeout) * NANOS && Seconds(now) < Seconds(timer) + rtimeout
                && stage == old(stage) && status == old(status)
      ensures cut == Failed <==> event.Broken?
      ensures cut == Failed ==> stage == Post
      ensures cut == TimedOut ==>
                Seconds(now) >= Seconds(timer) + rtimeout && stage == Write && status == TIMEOUT_STATUS
    {
      if event.Broken? {
        stage := Post;
        return Failed;
      }
      if Seconds(now) >= Seconds(timer) + rtimeout {
        Reject(TIMEOUT_STATUS);
        return TimedOut;
      }
      BeforeTheDeadline(now, Seconds(timer) + rtimeout);
      return NotCut;
    }

    // No call but the last was refused when the idle time was over.
    ghost predicate NotLateBefore(env: Schedule, before: nat, since: nat, rtimeout: nat)
      reads this
    {
      forall i: nat :: before <= i < calls - 1 && env(i).event.WouldBlock? ==>
                         Seconds(env(i).now) < Seconds(since) + rtimeout
    }

    // Reads until the header is in the preamble.
    method ReadHeader(env: Schedule, timer: nat, rtimeout: nat) returns (hlen: int, cut: Cut)
      requires Valid() && ClockAdvances(env) && taken == 0
      modifies this`taken, this`calls, this`heard, this`stage, this`status, preamble
      ensures Valid() && taken <= PREAMBLE_SIZE && preamble[..taken] == incoming[..taken]
      ensures hlen == HeaderEnd(incoming[..taken])
      ensures cut == NotCut && hlen == -1 ==> taken == PREAMBLE_SIZE
      ensures cut == ClosedEarly ==> hlen == -1
      ensures calls >= old(calls) && CutBy(env, old(calls), cut, timer, rtimeout)
      ensures cut == TimedOut ==> stage == Write && status == TIMEOUT_STATUS
      ensures cut == TimedOut && env(calls - 1).event.Ready? ==> hlen == -1 && taken == |incoming| < PREAMBLE_SIZE
      ensures NotLateBefore(env, old(calls), timer, rtimeout)
      ensures cut == Failed ==> stage == Post
      ensures cut.NotCut? || cut.ClosedEarly? ==> stage == old(stage) && status == old(status)
    {
      hide Seconds, BlankAt;
      var bsize := PREAMBLE_SIZE;
      hlen, cut := -1, NotCut;
      while hlen < 0 || bsize <= 0
        invariant Valid() && calls >= old(calls) && bsize == PREAMBLE_SIZE - taken >= 0
        invariant preamble[..taken] == incoming[..taken] && hlen == HeaderEnd(incoming[..taken])
        invariant forall i: nat :: old(calls) <= i < calls && env(i).event.WouldBlock? ==>
                                     Seconds(env(i).now) < Seconds(timer) + rtimeout
        invariant stage == old(stage) && status == old(status) && cut == NotCut
        decreases bsize, (Seconds(timer) + rtimeout) * NANOS - env(calls).now
      {
        var now := env(calls).now;
        var rd, event := Recv(env, preamble, 0, taken, bsize);
        if rd == 0 {
          cut := if hlen == -1 && event.Closed? then ClosedEarly else NotCut;
          break;
        } else if rd < 1 {
          cut := NotReady(event, now, timer, rtimeout);
          if cut != NotCut {
            return;
          }
        } else {
          bsize := bsize - rd;
          hlen := HeaderEnd(preamble[..taken]);
        }
      }
    }

    // The cut is the work of the last call made.
    ghost predicate CutBy(env: Schedule, before: nat, cut: Cut, timer: nat, rtimeout: nat)
      reads this
    {
      && (cut != NotCut ==> calls > before)
      && (cut == ClosedEarly ==> env(calls - 1).event.Closed?)
      && (cut == Failed ==> env(calls - 1).event.Broken?)
      && (cut == TimedOut ==> Seconds(env(calls - 1).now) >= Seconds(timer) + rtimeout)
    }

    // A buffer for the body, holding what came with the header; the preamble's copy is wiped.
    method MoveExcess(hlen: nat, clen: nat) returns (body: array<Byte>, crecvd: nat)
      requires Valid() && hlen + 4 <= taken <= PREAMBLE_SIZE && taken <= hlen + 4 + clen
      requires preamble[..taken] == incoming[..taken]
      modifies preamble
      ensures fresh(body) && body.Length == clen && crecvd == taken - (hlen + 4)
      ensures body[..crecvd] == incoming[hlen + 4..taken]
    {
      body := new Byte[clen];
      crecvd := taken - (hlen + 4);
      forall k | 0 <= k < crecvd { body[k] := preamble[hlen + 4 + k]; }
      assert body[..crecvd] == preamble[..taken][hlen + 4..];
      forall k | hlen + 4 <= k < taken { preamble[k] := 0; }
    }

    // The last call came when nothing had been heard for the timeout.
    ghost predicate Idle(env: Schedule, since: nat, rtimeout: nat)
      reads this
    {
      calls > 0 && Seconds(env(calls - 1).now) >= Seconds(since) + rtimeout
    }

    // One read of the body loop.  An early end passes the request on as it is.
    method ReadPiece(env: Schedule, buf: array<Byte>, ghost lo: nat, at: nat, size: nat, timer: nat, rtimeout: nat)
      returns (rd: int, cut: Cut)
      requires Valid() && lo + at == taken && at + Min(size, |incoming| - taken) <= buf.Length && size > 0
      requires buf[..at] == incoming[lo..taken]
      modifies this`taken, this`calls, this`heard, this`stage, this`status, buf
      ensures Valid() && calls == old(calls) + 1 && CutBy(env, old(calls), cut, timer, rtimeout)
      ensures rd <= size && taken == old(taken) + if rd > 0 then rd else 0
      ensures heard == if rd > 0 then env(old(calls)).now else old(heard)
      ensures cut == TimedOut ==> rd < 0 && (env(old(calls)).event.Ready? ==> taken == |incoming|)
      ensures buf[..taken - lo] == incoming[lo..taken]
      ensures cut == NotCut ==> rd != 0 && stage == old(stage) && status == old(status)
      ensures cut == NotCut && rd < 1 ==>
                env(old(calls)).now < (Seconds(timer) + rtimeout) * NANOS
                && Seconds(env(old(calls)).now) < Seconds(timer) + rtimeout
      ensures rd > 0 ==> env(old(calls)).event.Ready?
      ensures cut == TimedOut ==> stage == Write && status == TIMEOUT_STATUS
      ensures cut == Failed ==> stage == Post
      ensures cut == ClosedEarly ==> stage == Proc
    {
      var now := env(calls).now;
      var event;
      rd, event := Recv(env, buf, lo, at, size);
      cut := NotCut;
      if rd == 0 {
        stage, cut := Proc, ClosedEarly;
      } else if rd < 1 {
        cut := NotReady(event, now, timer, rtimeout);
      }
    }

    // The body loop: fills the buffer from the crecvd bytes on that it holds, which came after
    // position lo.  The idle time starts again with every piece.
    method ReadPieces(env: Schedule, body: array<Byte>, ghost lo: nat, from: nat, start: nat, rtimeout: nat)
      returns (cut: Cut)
      requires Valid() && ClockAdvances(env) && lo + from == taken && from <= body.Length
      requires body[..from] == incoming[lo..taken] && |incoming| <= lo + body.Length && start <= env(calls).now
      modifies this`taken, this`calls, this`heard, this`stage, this`status, body
      ensures Valid() && taken >= old(taken) && calls >= old(calls) && CutBy(env, old(calls), cut, start, rtimeout)
      ensures cut == NotCut ==>
                && taken == lo + body.Length && body[..] == incoming[lo..taken]
                && stage == old(stage) && status == old(status)
      ensures cut == TimedOut ==> stage == Write && status == TIMEOUT_STATUS
      ensures cut == TimedOut ==> Idle(env, if taken > old(taken) then heard else start, rtimeout)
      ensures cut == TimedOut && env(calls - 1).event.Ready? ==> taken == |incoming| < lo + body.Length
      ensures NotLateBefore(env, old(calls), if taken > old(taken) then heard else start, rtimeout)
      ensures cut == Failed ==> stage == Post
      ensures cut == ClosedEarly ==> stage == Proc
    {
      hide Seconds;
      ghost var t0, c0, s0, st0 := taken, calls, stage, status;
      var crecvd, timer, bsize := from, start, READ_SIZE;
      cut := NotCut;
      while crecvd < body.Length
        invariant Valid() && calls >= c0 && lo + crecvd == taken >= t0
        invariant crecvd <= body.Length && body[..crecvd] == incoming[lo..taken]
        invariant crecvd < body.Length ==> 0 < bsize <= READ_SIZE
        invariant start <= timer <= env(calls).now && timer == if taken > t0 then heard else start
        invariant forall i: nat :: c0 <= i < calls && env(i).event.WouldBlock? ==>
                                     Seconds(env(i).now) < Seconds(timer) + rtimeout
        invariant stage == s0 && status == st0 && cut == NotCut
        decreases body.Length - crecvd, (Seconds(timer) + rtimeout) * NANOS - env(calls).now
      {
        var now := env(calls).now;
        var rd;
        rd, cut := ReadPiece(env, body, lo, crecvd, bsize, timer, rtimeout);
        assert env(calls - 1).now == now < env(calls - 1 + 1).now;
        if cut != NotCut {
          LaterSeconds(start, timer);
          return;
        }
        if rd > 0 {
          crecvd := crecvd + rd;
          if body.Length - crecvd < READ_SIZE {
            bsize := body.Length - crecvd;
          }
          LaterSeconds(timer, now);
          timer := now;
        }
      }
      assert body[..] == body[..crecvd];
    }

    // Reads the rest of a body into a buffer of its own, after the part that came with the
    // header.
    method ReadBody(env: Schedule, start: nat, rtimeout: nat, hlen: nat, length: nat) returns (cut: Cut)
      requires Valid() && ClockAdvances(env) && hlen + 4 <= taken <= PREAMBLE_SIZE
      requires preamble[..taken] == incoming[..taken]
      requires taken < hlen + 4 + length && |incoming| <= hlen + 4 + length
      requires start <= env(calls).now
      modifies this`taken, this`calls, this`heard, this`stage, this`status
      modifies this`content, this`contentAt, this`clen, preamble
      ensures Valid() && taken >= old(taken)
      ensures cut == NotCut ==>
                && taken == hlen + 4 + length && clen == length && Msg() == incoming[hlen + 4..taken]
                && stage == old(stage) && status == old(status)
      ensures calls >= old(calls) && CutBy(env, old(calls), cut, start, rtimeout)
      ensures cut == TimedOut ==> stage == Write && status == TIMEOUT_STATUS
      ensures cut == TimedOut ==> Idle(env, if taken > old(taken) then heard else start, rtimeout)
      ensures cut == TimedOut && env(calls - 1).event.Ready? ==> taken == |incoming| < hlen + 4 + length
      ensures NotLateBefore(env, old(calls), if taken > old(taken) then heard else start, rtimeout)
      ensures cut == Failed ==> stage == Post
      ensures cut == ClosedEarly ==> stage == Proc
    {
      var body, crecvd := MoveExcess(hlen, length);
      content, contentAt, clen := body, 0, length;
      cut := ReadPieces(env, body, hlen + 4, crecvd, start, rtimeout);
      assert body[0..length] == body[..];
    }

    // The connection stands as the reading says.
    ghost predicate Stands(r: Reading)
      reads this, content
    {
      match r
      case Rejected(s) => stage == Write && status == s
      case NoBody => stage == Proc && Valid() && Msg() == []
      case Complete(body) => stage == Proc && Valid() && Msg() == body
      case Unfinished => false
    }

    // read_notls.  Whatever the fragmentation, a read that is not cut short by the peer, a
    // failure or the idle timeout has the outcome the bytes alone determine.
    method ReadRequest(env: Schedule, p: Parsers, rtimeout: nat) returns (ok: bool, cut: Cut)
      requires Valid() && ClockAdvances(env) && taken == 0 && clen == 0 && NoExcess(incoming, p)
      modifies this`taken, this`calls, this`heard, this`stage, this`status
      modifies this`content, this`contentAt, this`clen, this`parsed, preamble
      ensures Valid() && (cut == NotCut ==> ok && Stands(Expected(incoming, p)))
      ensures stage == Proc ==> parsed.Header? && parsed == ExpectedHeader(incoming, p)
      ensures calls >= old(calls) && CutBy(env, old(calls), cut, env(old(calls)).now, rtimeout)
      ensures cut == TimedOut ==> ok && stage == Write && status == TIMEOUT_STATUS
      ensures cut == TimedOut && env(calls - 1).event.Ready? ==> Expected(incoming, p) == Unfinished
      ensures cut == Failed ==> !ok && stage == Post
      ensures cut == ClosedEarly ==>
                ok && if HeaderEnd(incoming[..Min(PREAMBLE_SIZE, taken)]) == -1
                      then stage == Write && status == ERROR_STATUS else stage == Proc
    {
      hide HeaderEnd, ExpectedBody, Seconds, NotLateBefore, Idle;
      var timer := env(calls).now;
      var hlen;
      hlen, cut := ReadHeader(env, timer, rtimeout);
      if cut == Failed || cut == TimedOut {
        return cut != Failed, cut;
      }
      if hlen == -1 {
        Reject(ERROR_STATUS);
        assert incoming[..Min(PREAMBLE_SIZE, taken)] == incoming[..taken];
        return true, cut;
      }
      HeaderEndInPreamble(incoming, taken, |incoming|);
      assert preamble[..hlen] == preamble[..taken][..hlen] == incoming[..hlen];
      parsed := p.header(preamble[..hlen]);
      if parsed.BadHeader? {
        Reject(ERROR_STATUS);
        return true, cut;
      }
      if !parsed.hasBody {
        stage := Proc;
        return true, cut;
      }
      ClockForward(env, old(calls), calls);
      ghost var before := taken;
      ok, cut := ReadContent(env, timer, p, rtimeout, hlen, parsed.clen);
      HeaderEndInPreamble(incoming, before, taken);
    }

    // The part of read_notls after the header of a request that has a body.
    method ReadContent(env: Schedule, start: nat, p: Parsers, rtimeout: nat, hlen: nat, length: nat)
      returns (ok: bool, cut: Cut)
      requires Valid() && ClockAdvances(env) && hlen + 4 <= taken <= PREAMBLE_SIZE
      requires preamble[..taken] == incoming[..taken] && |incoming| <= hlen + 4 + length
      requires start <= env(calls).now
      modifies this`taken, this`calls, this`heard, this`stage, this`status
      modifies this`content, this`contentAt, this`clen, preamble
      ensures Valid() && (cut == NotCut ==> ok && Stands(ExpectedBody(incoming, p, hlen, length)))
      ensures calls >= old(calls) && CutBy(env, old(calls), cut, start, rtimeout)
      ensures cut == TimedOut ==> ok && stage == Write && status == TIMEOUT_STATUS
      ensures cut == TimedOut ==> Idle(env, if taken > old(taken) then heard else start, rtimeout)
      ensures cut == TimedOut && env(calls - 1).event.Ready? ==> ExpectedBody(incoming, p, hlen, length) == Unfinished
      ensures cut == Failed ==> !ok && stage == Post
      ensures cut == ClosedEarly ==> ok && stage == Proc
      ensures taken >= old(taken)
    {
      cut := NotCut;
      if taken == hlen + 4 + length {
        content, contentAt, clen := preamble, hlen + 4, length;
        assert preamble[hlen + 4..taken] == preamble[..taken][hlen + 4..] == incoming[hlen + 4..taken];
      } else {
        if length > READ_MAX {
          Reject(ERROR_STATUS);
          return true, cut;
        }
        cut := ReadBody(env, start, rtimeout, hlen, length);
        if cut != NotCut {
          return cut != Failed, cut;
        }
      }
      if !p.content(Msg()) {
        Reject(ERROR_STATUS);
        return true, cut;
      }
      stage := Proc;
      return true, cut;
    }
  }

  // ---------- What a request is read as ----------

  // A header that fits the preamble and what follows its blank line decide: a bad header, a
  // body over 8 MB and a refused body are error 500, a request without a body is ready at
  // once, and one with a body is ready with it as soon as all of it is there.
  lemma ReadingByParts(header: seq<Byte>, rest: seq<Byte>, p: Parsers)
    requires |header| + 4 <= PREAMBLE_SIZE && HeaderEnd(header + [13, 10, 13]) == -1
    ensures var incoming := header + [13, 10, 13, 10] + rest;
            && ExpectedHeader(incoming, p) == p.header(header)
            && match p.header(header)
               case BadHeader => Expected(incoming, p) == Rejected(500)
               case Header(hasBody, clen, _, _) =>
                 Expected(incoming, p) ==
                   if !hasBody then NoBody
                   else if clen > 8_388_608 then Rejected(500)
                   else if |rest| < clen then Unfinished
                   else if p.content(rest[..clen]) then Complete(rest[..clen]) else Rejected(500)
  {
    var incoming := header + [13, 10, 13, 10] + rest;
    HeaderOfParts(header, rest);
    assert incoming[..|header|] == header;
    if p.header(header).Header? && |rest| >= p.header(header).clen {
      var clen := p.header(header).clen;
      assert incoming[|header| + 4..|header| + 4 + clen] == rest[..clen];
    }
  }

  lemma HeaderOfParts(header: seq<Byte>, rest: seq<Byte>)
    requires |header| + 4 <= PREAMBLE_SIZE && HeaderEnd(header + [13, 10, 13]) == -1
    ensures var incoming := header + [13, 10, 13, 10] + rest;
            HeaderEnd(incoming[..Min(PREAMBLE_SIZE, |incoming|)]) == |header|
  {
    var incoming := header + [13, 10, 13, 10] + rest;
    var seen := incoming[..Min(PREAMBLE_SIZE, |incoming|)];
    assert BlankAt(seen, |header|);
    forall j | 0 <= j < |header| ensures BlankAt(seen, j) ==> BlankAt(header + [13, 10, 13], j) {
    }
  }

  // Without a blank line in the preamble nothing is read once the preamble is full.
  lemma ReadingWithoutHeader(incoming: seq<Byte>, p: Parsers)
    requires forall j :: 0 <= j && j + 4 <= PREAMBLE_SIZE ==> !BlankAt(incoming, j)
    ensures Expected(incoming, p) == if |incoming| < 2048 then Unfinished else Rejected(500)
  {
    var seen := incoming[..Min(PREAMBLE_SIZE, |incoming|)];
    forall j: int ensures BlankAt(seen, j) ==> BlankAt(incoming, j) && 0 <= j && j + 4 <= PREAMBLE_SIZE {
    }
    assert HeaderEnd(seen) == -1;
  }

  // A header and a body of the announced length, the header fitting the preamble: the
  // outcome is exactly that body.
  lemma ProperRequestIsItsBody(header: seq<Byte>, body: seq<Byte>, p: Parsers, host: Option<string>, path: string)
    requires |header| + 4 <= PREAMBLE_SIZE && HeaderEnd(header + [13, 10, 13]) == -1
    requires p.header(header) == Header(true, |body|, host, path) && p.content(body) && |body| <= READ_MAX
    ensures var incoming := header + [13, 10, 13, 10] + body;
            NoExcess(incoming, p) && Expected(incoming, p) == Complete(body)
  {
    var incoming := header + [13, 10, 13, 10] + body;
    ReadingByParts(header, body, p);
    HeaderOfParts(header, body);
    assert incoming[..|header|] == header && body[..|body|] == body;
  }
}
