/**
 `tunPolicyConn`: the write side of a connection taken from the TUN device.  Octets are held back until the
 first TLS record is complete; that record is judged and transformed, everything else passes through.

 `Step` is one `Write` as a state transition, `Run` a sequence of them; the class performs the same transitions.
 */
module TunBridge {
  import opened Bytes
  import opened Wire
  import opened ClientHello
  import opened Fragment
  import opened Policies

  const ALERT_FATAL: Byte := 2
  // the numbers the program sends under these names (section 6 of RFC 8446 has them the other way round)
  const ALERT_ACCESS_DENIED: Byte := 70
  const ALERT_PROTOCOL_VERSION: Byte := 49

  /** Policies as the configuration loader lets them in. */
  type Loaded = p: Policy | p.numRecords >= 0 && p.numSegments >= -1 witness NO_POLICY

  type Matcher = seq<Byte> -> Option<Loaded>

  // ----- judging the first record -----

  datatype Verdict = Unparsed | Refused(events: seq<Event>) | Forwarded(script: Script)

  function Alert(version: seq<Byte>, desc: Byte): Event
    requires |version| == 2
  {
    Send([0x15, version[0], version[1], 0x00, 0x02, ALERT_FATAL, desc])
  }

  /** The policy in force: a domain policy for the server name takes precedence over the planned one. */
  function Effective(record: seq<Byte>, plan: Loaded, matcher: Matcher): Loaded
    requires |record| >= 5
  {
    var f := ParseHello(record).found;
    SniInBounds(record);
    if f.sniStart > 0 && f.sniLen > 0 then
      match matcher(record[f.sniStart..f.sniStart + f.sniLen])
      case Some(domain) => MergeTwo(domain, plan)
      case None => plan
    else plan
  }

  /** Merging stays within what the loader lets in. */
  function MergeTwo(domain: Loaded, plan: Loaded): (r: Policy)
    ensures r.numRecords >= 0 && r.numSegments >= -1
  {
    assert Fold([domain, plan]) == Fill(domain, Fold([plan])) by { assert [domain, plan][1..] == [plan]; }
    FoldOne(plan);
    Merge([domain, plan])
  }

  /** The decoy trick: everything before the cut goes behind a decoy, the rest as an ordinary write. */
  function DecoyScript(record: seq<Byte>, f: Found): Script {
    if !SliceOk(record, f.sniStart, f.sniLen) then Script([QueryTtl], true)
    else
      var cut := FindLastDotOrMidPos(record, f.sniStart, f.sniLen);
      Script([QueryTtl] + [Desync(record[..cut]), Send(record[cut..])], false)
  }

  function ProbeEvents(fakeTtl: int): seq<Event> {
    if fakeTtl == 0 || fakeTtl == UNSET_INT then [ProbeTtl] else []
  }

  function DesyncScript(record: seq<Byte>, f: Found, fakeTtl: int): Script {
    var decoy := DecoyScript(record, f);
    Script(ProbeEvents(fakeTtl) + decoy.events, decoy.panics)
  }

  function Treatment(record: seq<Byte>, f: Found, p: Loaded): Script
    requires |record| >= 5
  {
    if p.mode == ModeTlsRf then
      SendScript(record, f.sniStart, f.sniLen, p.numRecords, p.numSegments,
                 p.oob == BoolTrue, p.oobEx == BoolTrue, p.modMinorVer == BoolTrue)
    else if p.mode == ModeTtlD then DesyncScript(record, f, p.fakeTtl)
    else Script([Send(record)], false)
  }

  function Judge(record: seq<Byte>, plan: Loaded, matcher: Matcher): Verdict
    requires |record| >= 5
  {
    var h := ParseHello(record);
    if h.err.Some? then Unparsed
    else if plan.mode == ModeTlsAlert then Refused([Alert(h.version, ALERT_ACCESS_DENIED), Close])
    else if plan.tls13Only == BoolTrue && !h.found.hasKeyShare then Refused([Alert(h.version, ALERT_PROTOCOL_VERSION), Close])
    else
      var p := Effective(record, plan, matcher);
      if p.mode == ModeBlock then Refused([Close])
      else if p.mode == ModeTlsAlert then Refused([Alert(h.version, ALERT_ACCESS_DENIED), Close])
      else Forwarded(Treatment(record, h.found, p))
  }

  // ----- one write -----

  /** `crashed` records a run-time panic inside `Write`. */
  datatype TunState = TunState(handled: bool, closed: bool, crashed: bool, pending: seq<Byte>, conn: ConnState)

  datatype Reply = Accepted(n: nat) | Eof | WriteFailed | Panic

  predicate IsTls(s: seq<Byte>)
    requires |s| >= 5
  {
    s[0] == HANDSHAKE && s[1] == TLS_MAJOR
  }

  function RecordEnd(s: seq<Byte>): nat
    requires |s| >= 5
  {
    5 + U16At(s, 3)
  }

  /** Enough octets to decide what the first record is. */
  predicate Ready(s: seq<Byte>) {
    |s| >= 5 && (!IsTls(s) || |s| >= RecordEnd(s))
  }

  /** The end of handling: the buffered tail follows the record, when there is one. */
  function FlushTail(c: ConnState, tail: seq<Byte>): (TunState, bool) {
    if tail == [] then (TunState(true, false, false, [], c), true)
    else (TunState(true, c.left == 0, false, [], Perform(c, [Send(tail)])), c.left > 0)
  }

  /** Handling a ready buffer. */
  function Handle(pending: seq<Byte>, c: ConnState, plan: Loaded, matcher: Matcher): (TunState, Reply)
    requires Ready(pending)
  {
    if !IsTls(pending) then
      (TunState(true, c.left == 0, false, [], Perform(c, [Send(pending)])), if c.left > 0 then Accepted(0) else WriteFailed)
    else
      HandleAs(pending, c, Judge(pending[..RecordEnd(pending)], plan, matcher))
  }

  /** Acting on the verdict.  An unreadable record is flushed with everything behind it. */
  function HandleAs(pending: seq<Byte>, c: ConnState, v: Verdict): (TunState, Reply)
    requires Ready(pending) && IsTls(pending)
  {
    var tail := pending[RecordEnd(pending)..];
    match v
    case Refused(events) => (TunState(true, true, false, [], Perform(c, events)), Eof)
    case Unparsed => Finish(pending, tail, Script([Send(pending)], false), c)
    case Forwarded(script) => Finish(pending, tail, script, c)
  }

  function Finish(pending: seq<Byte>, tail: seq<Byte>, script: Script, c: ConnState): (TunState, Reply) {
    var c1 := Perform(c, script.events);
    match OutcomeOf(script, c.left)
    case Failed => (TunState(true, true, false, [], c1), WriteFailed)
    case Panicked => (TunState(false, false, true, pending, c1), Panic)
    case Sent =>
      var (st, ok) := FlushTail(c1, tail);
      (st, if ok then Accepted(0) else WriteFailed)
  }

  /** One call of `Write`. */
  function Step(st: TunState, b: seq<Byte>, plan: Loaded, matcher: Matcher): (TunState, Reply) {
    if st.crashed then (st, Panic)
    else if st.closed then (st, Eof)
    else if st.handled then
      (st.(conn := Perform(st.conn, [Send(b)])), if st.conn.left > 0 then Accepted(|b|) else WriteFailed)
    else
      var pending := st.pending + b;
      if !Ready(pending) then (st.(pending := pending), Accepted(|b|))
      else
        var (next, reply) := Handle(pending, st.conn, plan, matcher);
        (next, if reply.Accepted? then Accepted(|b|) else reply)
  }

  function Run(st: TunState, ws: seq<seq<Byte>>, plan: Loaded, matcher: Matcher): TunState {
    if ws == [] then st else Step(Run(st, ws[..|ws| - 1], plan, matcher), ws[|ws| - 1], plan, matcher).0
  }

  /** A new connection on which `left` steps succeed and the next gets `part` octets out. */
  function Fresh(left: nat, part: nat): TunState {
    TunState(false, false, false, [], NewConn(left, part))
  }

  // ----- the class -----

  class TunPolicyConn {
    const plan: Loaded
    const matcher: Matcher
    const conn: Conn
    var handled: bool
    var closed: bool
    var crashed: bool
    var pending: seq<Byte>

    ghost function State(): TunState
      reads this, conn
    {
      TunState(handled, closed, crashed, pending, conn.State())
    }

    constructor (conn: Conn, plan: Loaded, matcher: Matcher)
      ensures this.conn == conn && this.plan == plan && this.matcher == matcher
      ensures State() == TunState(false, false, false, [], conn.State())
    {
      this.conn, this.plan, this.matcher := conn, plan, matcher;
      handled, closed, crashed, pending := false, false, false, [];
    }

    /** Writes the held octets, if any, and forgets them. */
    method FlushPending() returns (ok: bool)
      modifies this`pending, conn
      ensures pending == []
      ensures old(pending) == [] ==> ok && conn.State() == old(conn.State())
      ensures old(pending) != [] ==> conn.State() == Perform(old(conn.State()), [Send(old(pending))]) && ok == (old(conn.left) > 0)
    {
      if |pending| == 0 { return true; }
      ok := conn.Do(Send(pending));
      pending := [];
    }

    method Refuse(alert: Option<Event>)
      modifies conn
      ensures conn.State() == Perform(old(conn.State()), if alert.Some? then [alert.value, Close] else [Close])
    {
      if alert.Some? {
        PerformInOrder(conn.State(), [alert.value], [Close]);
        assert [alert.value] + [Close] == [alert.value, Close];
        var _ := conn.Do(alert.value);
      }
      var _ := conn.Do(Close);
    }

    method DesyncSend(record: seq<Byte>, f: Found, fakeTtl: int) returns (r: Outcome)
      modifies conn
      ensures var s := DesyncScript(record, f, fakeTtl);
              conn.State() == Perform(old(conn.State()), s.events) && r == OutcomeOf(s, old(conn.left))
    {
      TwoStages(conn.State(), ProbeEvents(fakeTtl), DecoyScript(record, f).events);
      PerformNothing(conn.State());
      if fakeTtl == 0 || fakeTtl == UNSET_INT {
        var found := conn.Do(ProbeTtl);
        if !found { return Failed; }
      }
      r := SendDecoy(record, f);
    }

    method SendDecoy(record: seq<Byte>, f: Found) returns (r: Outcome)
      modifies conn
      ensures var s := DecoyScript(record, f);
              conn.State() == Perform(old(conn.State()), s.events) && r == OutcomeOf(s, old(conn.left))
    {
      if !SliceOk(record, f.sniStart, f.sniLen) {
        var known := conn.Do(QueryTtl);
        return if known then Panicked else Failed;
      }
      var cut := FindLastDotOrMidPos(record, f.sniStart, f.sniLen);
      r := SendHalves(record[..cut], record[cut..]);
    }

    method SendHalves(head: seq<Byte>, tail: seq<Byte>) returns (r: Outcome)
      modifies conn
      ensures var s := Script([QueryTtl] + [Desync(head), Send(tail)], false);
              conn.State() == Perform(old(conn.State()), s.events) && r == OutcomeOf(s, old(conn.left))
    {
      ghost var sends := [Desync(head), Send(tail)];
      TwoStages(conn.State(), [QueryTtl], sends);
      var ok := conn.Do(QueryTtl);
      if !ok { return Failed; }
      TwoStages(conn.State(), sends[..1], sends[1..]);
      assert sends[..1] + sends[1..] == sends;
      ok := conn.Do(Desync(head));
      if !ok { return Failed; }
      ok := conn.Do(Send(tail));
      return if ok then Sent else Failed;
    }

    method Treat(record: seq<Byte>, f: Found, p: Loaded) returns (r: Outcome)
      requires |record| >= 5
      modifies conn
      ensures var s := Treatment(record, f, p);
              conn.State() == Perform(old(conn.State()), s.events) && r == OutcomeOf(s, old(conn.left))
    {
      if p.mode == ModeTlsRf {
        var buf := new Byte[|record|](i requires 0 <= i < |record| => record[i]);
        assert buf[..] == record;
        r := SendRecords(conn, buf, f.sniStart, f.sniLen, p.numRecords, p.numSegments,
                         p.oob == BoolTrue, p.oobEx == BoolTrue, p.modMinorVer == BoolTrue);
      } else if p.mode == ModeTtlD {
        r := DesyncSend(record, f, p.fakeTtl);
      } else {
        var ok := conn.Do(Send(record));
        r := if ok then Sent else Failed;
      }
    }

    /** The first record: parse it, find its policy, refuse or forward it.  `None` is a refusal. */
    method HandleTLSRecord(record: seq<Byte>) returns (r: Option<Outcome>)
      requires |record| >= 5 && pending != []
      modifies this`pending, conn
      ensures match Judge(record, plan, matcher)
              case Unparsed =>
                pending == [] && conn.State() == Perform(old(conn.State()), [Send(old(pending))])
                && r == Some(OutcomeOf(Script([Send(old(pending))], false), old(conn.left)))
              case Refused(events) =>
                pending == old(pending) && r == None && conn.State() == Perform(old(conn.State()), events)
              case Forwarded(script) =>
                pending == old(pending) && r == Some(OutcomeOf(script, old(conn.left)))
                && conn.State() == Perform(old(conn.State()), script.events)
    {
      var h := ParseClientHello(record);
      if h.err.Some? {
        var ok := FlushPending();
        return Some(if ok then Sent else Failed);
      }
      if plan.mode == ModeTlsAlert {
        Refuse(Some(Alert(h.version, ALERT_ACCESS_DENIED)));
        return None;
      }
      if plan.tls13Only == BoolTrue && !h.found.hasKeyShare {
        Refuse(Some(Alert(h.version, ALERT_PROTOCOL_VERSION)));
        return None;
      }
      var p := Effective(record, plan, matcher);
      if p.mode == ModeBlock {
        Refuse(None);
        return None;
      }
      if p.mode == ModeTlsAlert {
        Refuse(Some(Alert(h.version, ALERT_ACCESS_DENIED)));
        return None;
      }
      var outcome := Treat(record, h.found, p);
      return Some(outcome);
    }

    /** Handles the held octets once they are ready. */
    method HandlePending() returns (reply: Reply)
      requires !handled && !closed && !crashed && Ready(pending)
      modifies this, conn
      ensures (State(), reply) == Handle(old(pending), old(conn.State()), plan, matcher)
    {
      if pending[0] != HANDSHAKE || pending[1] != TLS_MAJOR {
        handled := true;
        var ok := FlushPending();
        closed := !ok;
        return if ok then Accepted(0) else WriteFailed;
      }
      var end := RecordEnd(pending);
      var record, tail := pending[..end], pending[end..];
      var r := HandleTLSRecord(record);
      if r == Some(Panicked) {
        crashed := true;
        return Panic;
      }
      handled := true;
      pending := [];
      if r != Some(Sent) {
        closed := true;
        return if r == None then Eof else WriteFailed;
      }
      if |tail| > 0 {
        var ok := conn.Do(Send(tail));
        if !ok {
          closed := true;
          return WriteFailed;
        }
      }
      return Accepted(0);
    }

    /** `Write`: exactly one step of the state machine. */
    method Write(b: seq<Byte>) returns (reply: Reply)
      requires !crashed
      modifies this, conn
      ensures (State(), reply) == Step(old(State()), b, plan, matcher)
    {
      if closed { return Eof; }
      if handled {
        var ok := conn.Do(Send(b));
        return if ok then Accepted(|b|) else WriteFailed;
      }
      pending := pending + b;
      if !Ready(pending) { return Accepted(|b|); }
      reply := HandlePending();
      if reply.Accepted? { reply := Accepted(|b|); }
    }
  }
}
