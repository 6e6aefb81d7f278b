/** write_notls of src/ctx/ctx-http.c: a response delivered through partial sends. */
module HttpWrite {
  import opened HttpRead

  const WRITE_SIZE := 8192

  // The finished response: its message and, when it is sent with sendfile, the open file
  // and the content length announced for it.
  datatype Response = Response(msg: seq<Byte>, sendfile: bool, file: seq<Byte>, clen: nat)

  // How a loop of sends ended.
  datatype End = Done | ZeroSend | Refused | Late

  // What one send of up to size bytes does; -1 is a refusal or a failure.
  function Sendable(e: Event, size: nat): (n: int)
    ensures -1 <= n <= size
  {
    match e
    case Ready(k) => Min(k, size)
    case _ => -1
  }

  // send() of up to size bytes of data from position from on.
  method Send(c: Connection, env: Schedule, data: seq<Byte>, from: nat, size: nat) returns (n: int, event: Event)
    requires from + size <= |data|
    modifies c`calls, c`sent
    ensures c.calls == old(c.calls) + 1 && event == env(old(c.calls)).event && n == Sendable(event, size)
    ensures c.sent == old(c.sent) + if n > 0 then data[from..from + n] else []
  {
    event := env(c.calls).event;
    c.calls := c.calls + 1;
    n := Sendable(event, size);
    if n > 0 {
      c.sent := c.sent + data[from..from + n];
    }
  }

  // An idle time that is over; the header of a file is given up a second earlier than the rest.
  predicate Overdue(now: nat, timer: nat, wtimeout: nat, early: bool) {
    if early then Seconds(now) >= Seconds(timer) + wtimeout else Seconds(now) > Seconds(timer) + wtimeout
  }

  // The loop over a message held in memory.  Even an empty one is offered to send() unless
  // it is the header of a file.
  method SendMessage(c: Connection, env: Schedule, msg: seq<Byte>, timer: nat, wtimeout: nat, header: bool)
    returns (pos: nat, end: End)
    requires ClockAdvances(env)
    modifies c`calls, c`sent
    ensures pos <= |msg| && c.sent == old(c.sent) + msg[..pos]
    ensures end == Done ==> pos == |msg|
    ensures end == ZeroSend ==>
              c.calls > old(c.calls) && ((pos == |msg| && !header) || env(c.calls - 1).event == Ready(0))
    ensures header && (end == Done || end == ZeroSend) && c.calls > old(c.calls) ==> env(c.calls - 1).event.Ready?
    ensures Justified(env, old(c.calls), c.calls, end, timer, wtimeout, header)
  {
    var total := |msg|;
    pos, end := 0, Done;
    while !header || total != 0
      invariant c.calls >= old(c.calls) && pos + total == |msg| && total >= 0
      invariant NotLateBefore(env, old(c.calls), c.calls + 1, timer, wtimeout)
      invariant header && c.calls > old(c.calls) && total == 0 ==> env(c.calls - 1).event.Ready?
      invariant c.sent == old(c.sent) + msg[..pos]
      decreases total, (Seconds(timer) + wtimeout + 1) * NANOS - env(c.calls).now
    {
      var now := env(c.calls).now;
      var n, event := Send(c, env, msg, pos, total);
      assert env(c.calls - 1).now < env(c.calls - 1 + 1).now;
      if n == 0 {
        end := ZeroSend;
        return;
      } else if n > -1 {
        assert msg[..pos + n] == msg[..pos] + msg[pos..pos + n];
        pos, total := pos + n, total - n;
        if total == 0 {
          return;
        }
      } else {
        if total == 0 {
          return;
        }
        if !event.WouldBlock? {
          end := Refused;
          return;
        }
        if Overdue(now, timer, wtimeout, header) {
          end := Late;
          return;
        }
      }
    }
  }

  // The end is the work of the last call made.
  ghost predicate Justified(env: Schedule, before: nat, after: nat, end: End, timer: nat, wtimeout: nat, early: bool) {
    && before <= after
    && (end != Done ==> after > before)
    && (end == Refused ==> env(after - 1).event.Closed? || env(after - 1).event.Broken?)
    && (end == Late ==> env(after - 1).event.WouldBlock? && Overdue(env(after - 1).now, timer, wtimeout, early))
    && NotLateBefore(env, before, after, timer, wtimeout)
  }

  // No call but the last was refused when the time was over.
  ghost predicate NotLateBefore(env: Schedule, before: nat, after: nat, timer: nat, wtimeout: nat) {
    forall i: nat :: before <= i < after - 1 && env(i).event.WouldBlock? ==>
                       Seconds(env(i).now) <= Seconds(timer) + wtimeout
  }

  // The idle time of a header is over a second before that of anything else.
  lemma OverdueIs(now: nat, timer: nat, wtimeout: nat)
    ensures Overdue(now, timer, wtimeout, true) <==> Seconds(now) - Seconds(timer) >= wtimeout
    ensures Overdue(now, timer, wtimeout, false) <==> Seconds(now) - Seconds(timer) > wtimeout
  {
  }

  // The loop over an open file, in pieces of at most 8192 bytes; it counts down from the
  // announced length and stops early at the end of the file.
  method SendFile(c: Connection, env: Schedule, file: seq<Byte>, clen: nat, timer: nat, wtimeout: nat)
    returns (off: nat, end: End)
    requires ClockAdvances(env)
    modifies c`calls, c`sent
    ensures off <= |file| && c.sent == old(c.sent) + file[..off]
    ensures end == Done ==> off == clen
    ensures end == ZeroSend ==> c.calls > old(c.calls) && (off == |file| || env(c.calls - 1).event == Ready(0))
    ensures Justified(env, old(c.calls), c.calls, end, timer, wtimeout, false)
  {
    var total: int := clen;
    off, end := 0, Done;
    while total != 0
      invariant c.calls >= old(c.calls) && off + total == clen && off <= |file|
      invariant NotLateBefore(env, old(c.calls), c.calls + 1, timer, wtimeout)
      invariant c.sent == old(c.sent) + file[..off]
      decreases |file| - off, (Seconds(timer) + wtimeout + 1) * NANOS - env(c.calls).now
    {
      var now := env(c.calls).now;
      var n, event := Send(c, env, file, off, Min(WRITE_SIZE, |file| - off));
      assert env(c.calls - 1).now < env(c.calls - 1 + 1).now;
      if n == 0 {
        end := ZeroSend;
        return;
      } else if n > -1 {
        assert file[..off + n] == file[..off] + file[off..off + n];
        off, total := off + n, total - n;
      } else {
        if !event.WouldBlock? {
          end := Refused;
          return;
        }
        if Overdue(now, timer, wtimeout, false) {
          end := Late;
          return;
        }
      }
    }
  }

  // All the bytes a response stands for.
  function Payload(r: Response): seq<Byte> {
    if r.sendfile then r.msg + r.file else r.msg
  }

  function Announced(r: Response): nat {
    if r.sendfile then |r.msg| + r.clen else |r.msg|
  }

  // write_notls.  Whatever the schedule, and unless a send of the header accepts nothing,
  // the peer gets a prefix of the payload; a write that ends by itself delivered exactly
  // the announced length.  It fails only at a call that failed or came too late.
  method WriteResponse(c: Connection, env: Schedule, r: Response, wtimeout: nat)
    returns (ok: bool, end: End, zeroHeader: bool, delivered: nat)
    requires ClockAdvances(env)
    modifies c`calls, c`sent, c`stage
    ensures c.stage == Post && c.calls >= old(c.calls)
    ensures !zeroHeader ==> delivered <= |Payload(r)| && c.sent == old(c.sent) + Payload(r)[..delivered]
    ensures !zeroHeader && end == Done ==> ok && delivered == Announced(r)
    ensures !zeroHeader && end == ZeroSend ==>
              ok && c.calls > old(c.calls) && (delivered == |Payload(r)| || env(c.calls - 1).event == Ready(0))
    ensures ok <==> end == Done || end == ZeroSend
    ensures zeroHeader ==>
              && r.sendfile && (exists i: nat :: old(c.calls) <= i < c.calls && env(i).event == Ready(0))
              && exists pos, off :: 0 <= pos <= |r.msg| && 0 <= off <= |r.file|
                                    && c.sent == old(c.sent) + r.msg[..pos] + r.file[..off]
    ensures end == Refused ==> FailedAt(env, old(c.calls), c.calls)
    ensures end == Late ==> LateAt(env, old(c.calls), c.calls, wtimeout)
    ensures NotLateBefore(env, old(c.calls), c.calls, env(old(c.calls)).now, wtimeout)
  {
    var timer := env(c.calls).now;
    c.stage := Post;
    var pos;
    pos, end := SendMessage(c, env, r.msg, timer, wtimeout, r.sendfile);
    delivered, zeroHeader := pos, r.sendfile && end == ZeroSend;
    if r.sendfile && (end == Done || end == ZeroSend) {
      var off;
      off, end := SendFile(c, env, r.file, r.clen, timer, wtimeout);
      delivered := pos + off;
    }
    ok := end == Done || end == ZeroSend;
  }

  // The last call of a write was one that failed, or one that could not go on when the time
  // was over.
  ghost predicate FailedAt(env: Schedule, before: nat, after: nat) {
    after > before && (env(after - 1).event.Closed? || env(after - 1).event.Broken?)
  }

  ghost predicate LateAt(env: Schedule, before: nat, after: nat, wtimeout: nat) {
    && after > before && !env(after - 1).event.Ready?
    && Seconds(env(after - 1).now) >= Seconds(env(before).now) + wtimeout
  }

  // A response that announces exactly what it holds.
  predicate Proper(r: Response) {
    r.sendfile ==> r.clen == |r.file|
  }

  // No send accepts zero bytes.
  ghost predicate NoZeroSend(env: Schedule) {
    forall i: nat :: env(i).event != Ready(0)
  }

  // Where no send accepts nothing, what the peer has is always a prefix of the payload, and
  // success means it is the whole payload, once and in order; and a write succeeds unless a
  // call fails or comes too late.
  method Deliver(c: Connection, env: Schedule, r: Response, wtimeout: nat) returns (ok: bool)
    requires ClockAdvances(env)
    modifies c`calls, c`sent, c`stage
    ensures c.stage == Post && c.calls >= old(c.calls)
    ensures !ok ==> FailedAt(env, old(c.calls), c.calls) || LateAt(env, old(c.calls), c.calls, wtimeout)
    ensures NotLateBefore(env, old(c.calls), c.calls, env(old(c.calls)).now, wtimeout)
    ensures NoZeroSend(env) && Proper(r) && ok ==> c.sent == old(c.sent) + Payload(r)
    ensures NoZeroSend(env) ==> old(c.sent) <= c.sent <= old(c.sent) + Payload(r)
  {
    var end, zeroHeader, delivered;
    ok, end, zeroHeader, delivered := WriteResponse(c, env, r, wtimeout);
    assert Payload(r)[..|Payload(r)|] == Payload(r);
  }
}
