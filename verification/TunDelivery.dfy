/** What the runs of `tunPolicyConn` deliver: held back, refused, crashed, sent twice, or delivered whole. */
module TunDelivery {
  import opened Bytes
  import opened Wire
  import opened ClientHello
  import opened Fragment
  import opened Policies
  import opened Reassembly
  import opened TunBridge
  import opened TunRuns
  import SimpleObfs

  /** The first record of a stream is a TLS record that does not parse. */
  predicate Unreadable(s: seq<Byte>)
    requires Ready(s)
  {
    IsTls(s) && ParseHello(s[..RecordEnd(s)]).err.Some?
  }

  lemma UnreadableIsUnparsed(s: seq<Byte>, plan: Loaded, matcher: Matcher)
    requires Ready(s) && IsTls(s)
    ensures Unreadable(s) <==> Judge(s[..RecordEnd(s)], plan, matcher).Unparsed?
  {
  }

  /** While the first record is incomplete nothing leaves, and everything accepted is held. */
  lemma HeldBack(ws: seq<seq<Byte>>, left: nat, part: nat, plan: Loaded, matcher: Matcher)
    requires !Ready(Flatten(ws))
    ensures var st := Run(Fresh(left, part), ws, plan, matcher);
            !st.handled && !st.closed && !st.crashed && st.conn.trace == [] && st.pending == Flatten(ws)
  {
    EveryRun(ws, left, part, plan, matcher);
  }

  /**
   When the first record does not parse, the octets behind it that arrived with it are sent twice: delivery is
   exactly-once if and only if the write that completed the record ended with it.
   */
  lemma ExactlyOnceIff(ws: seq<seq<Byte>>, plan: Loaded, matcher: Matcher)
    requires var s := Flatten(ws); Ready(s) && Unreadable(s)
    ensures var s, a, out := Flatten(ws), Arrived(ws), Stream(Planned(ws, plan, matcher));
            && RecordEnd(s) <= |a| <= |s|
            && out == s[..|a|] + s[RecordEnd(s)..|a|] + s[|a|..]
            && (out == s <==> |a| == RecordEnd(s))
  {
    HealthyExplained(ws, plan, matcher);
    ArrivedIsPrefix(ws);
    var s, a := Flatten(ws), Arrived(ws);
    ReadyExtends(a, s);
    UnreadableIsUnparsed(a, plan, matcher);
    Repeated(a, s, RecordEnd(s));
  }

  lemma Repeated(a: seq<Byte>, s: seq<Byte>, end: nat)
    requires end <= |a| && a <= s
    ensures a + a[end..] + s[|a|..] == s[..|a|] + s[end..|a|] + s[|a|..]
    ensures a + a[end..] + s[|a|..] == s <==> |a| == end
  {
    assert a == s[..|a|] && a[end..] == s[end..|a|];
    assert s == s[..|a|] + s[|a|..];
    if |a| == end { assert a[end..] == []; }
  }

  /** The concrete case: an unreadable record and one more octet in a single write come out as seven octets. */
  lemma DuplicatedTail(plan: Loaded, matcher: Matcher)
    ensures Stream(Planned([[0x16, 0x03, 0x01, 0x00, 0x00, 0x61]], plan, matcher)) == [0x16, 0x03, 0x01, 0x00, 0x00, 0x61, 0x61]
  {
    var w: seq<Byte> := [0x16, 0x03, 0x01, 0x00, 0x00, 0x61];
    FlattenOne(w);
    assert RecordEnd(w) == 5 && HeadError(w[..5]) == Some(HandshakeTooShort);
    assert [w][..0] == [] && Arrived([w]) == w;
    ExactlyOnceIff([w], plan, matcher);
  }

  /**
   Two ways of cutting the same octets into writes deliver the same octets, unless the first record is unreadable.
   If connections fail, what one run sends is a beginning of what the other sends.
   */
  lemma ChunkingDoesNotMatter(ws: seq<seq<Byte>>, vs: seq<seq<Byte>>, plan: Loaded, matcher: Matcher,
                              left: nat, part: nat, more: nat, other: nat)
    requires Flatten(ws) == Flatten(vs)
    requires Ready(Flatten(ws)) ==> !Unreadable(Flatten(ws))
    ensures var p, q := HealthyRun(ws, plan, matcher), HealthyRun(vs, plan, matcher);
            && Stream(p.conn.trace) == Stream(q.conn.trace)
            && p.handled == q.handled && p.closed == q.closed && p.crashed == q.crashed
    ensures var x := Stream(Run(Fresh(left, part), ws, plan, matcher).conn.trace);
            var y := Stream(Run(Fresh(more, other), vs, plan, matcher).conn.trace);
            x <= y || y <= x
  {
    HealthyExplained(ws, plan, matcher);
    HealthyExplained(vs, plan, matcher);
    var s := Flatten(ws);
    if Ready(s) {
      ArrivedIsPrefix(ws);
      ArrivedIsPrefix(vs);
      ReadyExtends(Arrived(ws), s);
      ReadyExtends(Arrived(vs), s);
      if IsTls(s) { UnreadableIsUnparsed(s, plan, matcher); }
      SameOutput(HealthyRun(ws, plan, matcher), HealthyRun(vs, plan, matcher),
                 Arrived(ws), Arrived(vs), s, FirstVerdict(s, plan, matcher));
    }
    FailingRunSendsPrefix(ws, left, part, plan, matcher);
    FailingRunSendsPrefix(vs, more, other, plan, matcher);
  }

  lemma SameOutput(p: TunState, q: TunState, a: seq<Byte>, b: seq<Byte>, s: seq<Byte>, v: Verdict)
    requires Ready(a) && a <= s && Ready(b) && b <= s && (IsTls(a) ==> !v.Unparsed?)
    requires IsTls(a) == IsTls(b) && RecordEnd(a) == RecordEnd(b)
    requires Settled(p, a, s, v) && Settled(q, b, s, v)
    ensures Stream(p.conn.trace) == Stream(q.conn.trace)
    ensures p.handled == q.handled && p.closed == q.closed && p.crashed == q.crashed
  {
  }

  // ----- refusals -----

  datatype Cause = PlanAlerts | NoKeyShare | PolicyBlocks | PolicyAlerts

  /** Why a readable record is refused, if it is. */
  ghost function CauseOf(record: seq<Byte>, plan: Loaded, matcher: Matcher): Option<Cause>
    requires |record| >= 5
  {
    if plan.mode == ModeTlsAlert then Some(PlanAlerts)
    else if plan.tls13Only == BoolTrue && !OffersKeyShare(record) then Some(NoKeyShare)
    else
      match Effective(record, plan, matcher).mode
      case ModeBlock => Some(PolicyBlocks)
      case ModeTlsAlert => Some(PolicyAlerts)
      case _ => None
  }

  /** The steps of a refusal, octet by octet. */
  function RefusalOf(cause: Cause, major: Byte, minor: Byte): seq<Event> {
    match cause
    case PolicyBlocks => [Close]
    case NoKeyShare => [Send([0x15, major, minor, 0x00, 0x02, 0x02, 49]), Close]
    case _ => [Send([0x15, major, minor, 0x00, 0x02, 0x02, 70]), Close]
  }

  /** What the client gets to read of it. */
  function RefusalOctets(cause: Cause, major: Byte, minor: Byte): seq<Byte> {
    match cause
    case PolicyBlocks => []
    case NoKeyShare => [0x15, major, minor, 0x00, 0x02, 0x02, 49]
    case _ => [0x15, major, minor, 0x00, 0x02, 0x02, 70]
  }

  lemma StreamOfRefusal(cause: Cause, major: Byte, minor: Byte)
    ensures Stream(RefusalOf(cause, major, minor)) == RefusalOctets(cause, major, minor)
  {
    StreamOfOne(Close);
    if cause != PolicyBlocks {
      var alert := Send(RefusalOctets(cause, major, minor));
      StreamCons(alert, [Close]);
      assert [alert] + [Close] == RefusalOf(cause, major, minor);
    }
  }

  lemma JudgeRefuses(record: seq<Byte>, plan: Loaded, matcher: Matcher)
    requires |record| >= 5 && ParseHello(record).err.None?
    ensures |record| >= 44 && !Judge(record, plan, matcher).Unparsed?
    ensures match CauseOf(record, plan, matcher)
            case None => Judge(record, plan, matcher).Forwarded?
            case Some(cause) => Judge(record, plan, matcher) == Refused(RefusalOf(cause, record[9], record[10]))
  {
    KeyShareIff(record);
  }

  lemma ReadableRecord(ws: seq<seq<Byte>>)
    requires var s := Flatten(ws); Ready(s) && IsTls(s) && !Unreadable(s)
    ensures var s, a := Flatten(ws), Arrived(ws);
            && Ready(a) && a <= s && IsTls(a) && RecordEnd(a) == RecordEnd(s)
            && a[..RecordEnd(a)] == s[..RecordEnd(s)] && ParseHello(s[..RecordEnd(s)]).err.None?
  {
    ArrivedIsPrefix(ws);
    ReadyExtends(Arrived(ws), Flatten(ws));
  }

  /**
   Over a readable first record a run is refused exactly when there is a cause, and the cause decides the steps taken:
   an alert with the number 70 when the plan or the policy in force alerts, one with 49 when key_share is missing where
   TLS 1.3 is demanded, and none for a block.  No octet of the client is sent, and no failure keeps the connection open.
   */
  lemma RefusedIff(ws: seq<seq<Byte>>, left: nat, part: nat, plan: Loaded, matcher: Matcher)
    requires var s := Flatten(ws); Ready(s) && IsTls(s) && !Unreadable(s)
    ensures var s, healthy, st := Flatten(ws), HealthyRun(ws, plan, matcher), Run(Fresh(left, part), ws, plan, matcher);
            var record := s[..RecordEnd(s)];
            && |record| >= 44
            && match CauseOf(record, plan, matcher)
               case None => !healthy.closed
               case Some(cause) =>
                 var steps := RefusalOf(cause, record[9], record[10]);
                 && healthy == TunState(true, true, false, [], ConnState(steps, 0, 0, false))
                 && st.closed && Stream(st.conn.trace) <= RefusalOctets(cause, record[9], record[10])
  {
    var s := Flatten(ws);
    var record := s[..RecordEnd(s)];
    ReadableRecord(ws);
    JudgeRefuses(record, plan, matcher);
    HealthyExplained(ws, plan, matcher);
    HealthyConn(ws, plan, matcher);
    FailingRunSendsPrefix(ws, left, part, plan, matcher);
    if CauseOf(record, plan, matcher).Some? {
      RefusalCloses(ws, left, part, plan, matcher);
      StreamOfRefusal(CauseOf(record, plan, matcher).value, record[9], record[10]);
    }
  }

  /** A refusal closes the connection even if its steps fail. */
  lemma {:induction false} RefusalCloses(ws: seq<seq<Byte>>, left: nat, part: nat, plan: Loaded, matcher: Matcher)
    requires Ready(Flatten(ws)) && Ready(Arrived(ws)) && IsTls(Arrived(ws))
    requires FirstVerdict(Arrived(ws), plan, matcher).Refused?
    ensures Run(Fresh(left, part), ws, plan, matcher).closed && !Run(Fresh(left, part), ws, plan, matcher).crashed
    decreases |ws|
  {
    var before, w := ws[..|ws| - 1], ws[|ws| - 1];
    FlattenLast(ws);
    if Ready(Flatten(before)) {
      RefusalCloses(before, left, part, plan, matcher);
    } else {
      HeldBack(before, left, part, plan, matcher);
    }
  }

  /** The number that section 6 of RFC 8446 assigns to a cause: access_denied is 49, protocol_version is 70. */
  function Assigned(cause: Cause): Option<Byte> {
    match cause
    case PolicyBlocks => None
    case NoKeyShare => Some(70)
    case _ => Some(49)
  }

  /** Every alert carries the number assigned to the other cause. */
  lemma AlertNumbersSwapped(ws: seq<seq<Byte>>, plan: Loaded, matcher: Matcher)
    requires var s := Flatten(ws); Ready(s) && IsTls(s) && !Unreadable(s)
    requires var cause := CauseOf(Flatten(ws)[..RecordEnd(Flatten(ws))], plan, matcher); cause.Some? && cause.value != PolicyBlocks
    ensures var s, trace := Flatten(ws), Planned(ws, plan, matcher);
            var cause := CauseOf(s[..RecordEnd(s)], plan, matcher).value;
            && |trace| == 2 && trace[0].Send? && |trace[0].data| == 7
            && trace[0].data[6] != Assigned(cause).value
            && Some(trace[0].data[6]) == Assigned(if cause == NoKeyShare then PlanAlerts else NoKeyShare)
  {
    RefusedIff(ws, 0, 0, plan, matcher);
  }

  // ----- end to end -----

  lemma TreatmentReassembles(record: seq<Byte>, p: Loaded)
    requires SingleRecord(record)
    requires !Treatment(record, ParseHello(record).found, p).panics
    ensures var d := Deframe(Stream(Treatment(record, ParseHello(record).found, p).events));
            d.Some? && Handshake(d.value) == record[5..]
  {
    var f := ParseHello(record).found;
    SniInBounds(record);
    if p.mode == ModeTlsRf {
      HandshakePreserved(record, f.sniStart, f.sniLen, p.numRecords, p.numSegments,
                         p.oob == BoolTrue, p.oobEx == BoolTrue, p.modMinorVer == BoolTrue);
    } else {
      assert Stream(Treatment(record, f, p).events) == record by {
        if p.mode == ModeTtlD {
          var cut := FindLastDotOrMidPos(record, f.sniStart, f.sniLen);
          StreamOfDesync(record, cut, p.fakeTtl);
        } else {
          StreamOfPair(Send(record));
        }
      }
      DeframeSingle(record);
      HandshakeOfOne(record[..3], record[5..]);
    }
  }

  lemma StreamOfDesync(record: seq<Byte>, cut: nat, fakeTtl: int)
    requires cut <= |record|
    ensures Stream(ProbeEvents(fakeTtl) + ([QueryTtl] + [Desync(record[..cut]), Send(record[cut..])])) == record
  {
    var d, e := Desync(record[..cut]), Send(record[cut..]);
    assert Stream([d, e]) == record by {
      StreamOfOne(e);
      StreamCons(d, [e]);
      assert [d] + [e] == [d, e];
      assert record[..cut] + record[cut..] == record;
    }
    StreamCons(QueryTtl, [d, e]);
    var rest := [QueryTtl] + [d, e];
    if ProbeEvents(fakeTtl) == [] {
      assert [] + rest == rest;
    } else {
      StreamCons(ProbeTtl, rest);
    }
  }

  /**
   Main theorem: if the first record is a ClientHello whose policy forwards it and whose treatment does not panic, then
   however it is cut into writes the peer receives records that reassemble to its handshake octets, followed by the
   rest of the client's octets, once and in order.  If the connection fails, it receives a beginning of that.
   */
  lemma HelloIsDelivered(ws: seq<seq<Byte>>, left: nat, part: nat, plan: Loaded, matcher: Matcher)
    requires var s := Flatten(ws); Ready(s) && IsTls(s) && Judge(s[..RecordEnd(s)], plan, matcher).Forwarded?
    requires var s := Flatten(ws); !Judge(s[..RecordEnd(s)], plan, matcher).script.panics
    ensures var s, conn := Flatten(ws), Run(Fresh(left, part), ws, plan, matcher).conn;
            var record, rest := s[..RecordEnd(s)], s[RecordEnd(s)..];
            var first := Stream(Judge(record, plan, matcher).script.events);
            && Deframe(first).Some? && Handshake(Deframe(first).value) == record[5..]
            && Stream(conn.trace) <= first + rest
            && (!conn.broken ==> Stream(conn.trace) == first + rest)
            && (conn.broken <==> left < |Planned(ws, plan, matcher)|)
  {
    HealthyExplained(ws, plan, matcher);
    FailingRunSendsPrefix(ws, left, part, plan, matcher);
    ArrivedIsPrefix(ws);
    var s, a := Flatten(ws), Arrived(ws);
    ReadyExtends(a, s);
    var record := s[..RecordEnd(s)];
    TreatmentReassembles(record, Effective(record, plan, matcher));
  }

  // ----- crashes -----

  /** Asking for a cut that cannot be made. */
  predicate AsksTooMuch(p: Loaded, named: bool) {
    || (p.mode == ModeTtlD && !named)
    || (p.mode == ModeTlsRf && p.numRecords <= 1 && p.numSegments == -1)
    || (p.mode == ModeTlsRf && !named && !(p.numRecords <= 1 && p.numSegments in {0, 1}))
  }

  lemma TreatmentPanics(record: seq<Byte>, p: Loaded)
    requires |record| >= 5
    ensures Treatment(record, ParseHello(record).found, p).panics
            <==> AsksTooMuch(p, ParseHello(record).found.sniStart != -1)
  {
    var f := ParseHello(record).found;
    SniInBounds(record);
    PanicsExactlyWhen(record, f.sniStart, f.sniLen, p.numRecords, p.numSegments,
                      p.oob == BoolTrue, p.oobEx == BoolTrue, p.modMinorVer == BoolTrue);
  }

  /** A failed connection has been handled; once handled, a run holds nothing back and cannot crash any more. */
  lemma {:induction false} BrokenIsHandled(ws: seq<seq<Byte>>, left: nat, part: nat, plan: Loaded, matcher: Matcher)
    ensures var st := Run(Fresh(left, part), ws, plan, matcher);
            (st.conn.broken ==> st.handled) && (st.handled ==> !st.crashed && st.pending == [])
    decreases |ws|
  {
    if ws != [] {
      BrokenIsHandled(ws[..|ws| - 1], left, part, plan, matcher);
      StepHandles(Run(Fresh(left, part), ws[..|ws| - 1], plan, matcher), ws[|ws| - 1], plan, matcher);
    }
  }

  lemma StepHandles(st: TunState, b: seq<Byte>, plan: Loaded, matcher: Matcher)
    requires (st.conn.broken ==> st.handled) && (st.handled ==> !st.crashed && st.pending == [])
    ensures var next := Step(st, b, plan, matcher).0;
            (next.conn.broken ==> next.handled) && (next.handled ==> !next.crashed && next.pending == [])
  {
    var pending := st.pending + b;
    if !st.crashed && !st.closed && !st.handled && Ready(pending) && IsTls(pending) {
      VerdictHandles(pending, st.conn, Judge(pending[..RecordEnd(pending)], plan, matcher));
    }
  }

  lemma VerdictHandles(pending: seq<Byte>, c: ConnState, v: Verdict)
    requires Ready(pending) && IsTls(pending) && !c.broken
    ensures var next := HandleAs(pending, c, v).0;
            (next.conn.broken ==> next.handled) && (next.handled ==> !next.crashed && next.pending == [])
  {
  }

  lemma HealthyCrashes(ws: seq<seq<Byte>>, plan: Loaded, matcher: Matcher)
    ensures var s := Flatten(ws);
            HealthyRun(ws, plan, matcher).crashed
            <==> && Ready(s) && IsTls(s)
                 && var record := s[..RecordEnd(s)];
                    Judge(record, plan, matcher).Forwarded?
                    && AsksTooMuch(Effective(record, plan, matcher), ParseHello(record).found.sniStart != -1)
  {
    HealthyExplained(ws, plan, matcher);
    ArrivedIsPrefix(ws);
    var s, a := Flatten(ws), Arrived(ws);
    if Ready(s) {
      ReadyExtends(a, s);
      if IsTls(s) {
        var record := s[..RecordEnd(s)];
        ForwardedPanics(record, plan, matcher);
      }
    }
  }

  lemma ForwardedPanics(record: seq<Byte>, plan: Loaded, matcher: Matcher)
    requires |record| >= 5
    ensures var v := Judge(record, plan, matcher);
            v.Forwarded? ==> (v.script.panics <==> AsksTooMuch(Effective(record, plan, matcher), ParseHello(record).found.sniStart != -1))
  {
    TreatmentPanics(record, Effective(record, plan, matcher));
  }

  /**
   A run crashes exactly when the first record is a hello to be forwarded whose treatment panics (fragmenting or
   decoying a hello without a server name, or asking for one segment per record of a single record) and the connection
   holds until then.
   */
  lemma CrashesExactlyWhen(ws: seq<seq<Byte>>, left: nat, part: nat, plan: Loaded, matcher: Matcher)
    ensures var s := Flatten(ws);
            Run(Fresh(left, part), ws, plan, matcher).crashed
            <==> && Ready(s) && IsTls(s) && |Planned(ws, plan, matcher)| <= left
                 && var record := s[..RecordEnd(s)];
                    Judge(record, plan, matcher).Forwarded?
                    && AsksTooMuch(Effective(record, plan, matcher), ParseHello(record).found.sniStart != -1)
  {
    HealthyCrashes(ws, plan, matcher);
    RunPerforms(ws, left, part, plan, matcher);
    FailingRunSendsPrefix(ws, left, part, plan, matcher);
    BrokenIsHandled(ws, left, part, plan, matcher);
  }

  // ----- runs that show it -----

  /** A ClientHello without extensions: 47 octets, and no server name. */
  function PlainHello(random: seq<Byte>): Message {
    Message(0x01, [0x03, 0x03], random, Body([], [], [], Bare([])))
  }

  function TwoRecords(): Loaded { NO_POLICY.(mode := ModeTlsRf, numRecords := 2) }

  lemma PlainHelloReads(random: seq<Byte>)
    requires |random| == 32
    ensures PlainHello(random).Ok()
    ensures var d := PlainHello(random).Print();
            |d| == 47 && Ready(d) && IsTls(d) && RecordEnd(d) == 47 && ParseHello(d) == Hello([0x03, 0x03], NOTHING, None)
  {
    var m := PlainHello(random);
    assert |m.body.Vectors()| == 4;
    HeadersRead(0x01, 38);
    PrintedHead(m);
    ParsesPrinted(m);
  }

  /** The concrete crash: this hello, in one write, under a policy that cuts it into two records. */
  lemma CrashingRun(random: seq<Byte>, left: nat, part: nat, matcher: Matcher)
    requires |random| == 32
    ensures Run(Fresh(left, part), [PlainHello(random).Print()], TwoRecords(), matcher).crashed
  {
    var d := PlainHello(random).Print();
    PlainHelloReads(random);
    FlattenOne(d);
    assert d[..47] == d;
    assert Judge(d, TwoRecords(), matcher) == Forwarded(Script([], true));
    assert Planned([d], TwoRecords(), matcher) == [] by {
      HealthyExplained([d], TwoRecords(), matcher);
      ArrivedIsPrefix([d]);
      ReadyExtends(Arrived([d]), d);
    }
    CrashesExactlyWhen([d], left, part, TwoRecords(), matcher);
  }

  /**
   The other end of the repository as the client: the ClientHello that simple-obfs prints, cut into writes in any way
   and followed by anything, is delivered under every plan that neither refuses it nor asks for an impossible cut.
   */
  lemma DisguiseIsDelivered(data: seq<Byte>, server: seq<Byte>, e: SimpleObfs.Entropy, rest: seq<Byte>,
                            ws: seq<seq<Byte>>, left: nat, part: nat, plan: Loaded, matcher: Matcher)
    requires |data| + |server| + 212 <= 65535 && e.Ok() && Flatten(ws) == SimpleObfs.HelloBytes(data, server, e) + rest
    requires matcher(server).None? && plan.mode !in {ModeTlsAlert, ModeBlock} && plan.tls13Only != BoolTrue
    requires !(plan.mode == ModeTlsRf && plan.numRecords <= 1 && plan.numSegments == -1)
    ensures var hello, conn := SimpleObfs.HelloBytes(data, server, e), Run(Fresh(left, part), ws, plan, matcher).conn;
            |hello| >= 5 && Judge(hello, plan, matcher).Forwarded?
            && var first := Stream(Judge(hello, plan, matcher).script.events);
            && Deframe(first).Some? && Handshake(Deframe(first).value) == hello[5..]
            && Stream(conn.trace) <= first + rest
            && (left >= |Planned(ws, plan, matcher)| ==> Stream(conn.trace) == first + rest)
  {
    var hello, s := SimpleObfs.HelloBytes(data, server, e), Flatten(ws);
    DisguiseIsForwarded(data, server, e, plan, matcher);
    assert hello <= s;
    ReadyExtends(hello, s);
    assert s[..|hello|] == hello && s[|hello|..] == rest;
    HelloIsDelivered(ws, left, part, plan, matcher);
  }

  lemma DisguiseIsForwarded(data: seq<Byte>, server: seq<Byte>, e: SimpleObfs.Entropy, plan: Loaded, matcher: Matcher)
    requires |data| + |server| + 212 <= 65535 && e.Ok()
    requires matcher(server).None? && plan.mode !in {ModeTlsAlert, ModeBlock} && plan.tls13Only != BoolTrue
    requires !(plan.mode == ModeTlsRf && plan.numRecords <= 1 && plan.numSegments == -1)
    ensures var hello := SimpleObfs.HelloBytes(data, server, e);
            && Ready(hello) && IsTls(hello) && RecordEnd(hello) == |hello|
            && Judge(hello, plan, matcher).Forwarded? && !Judge(hello, plan, matcher).script.panics
  {
    var hello := SimpleObfs.HelloBytes(data, server, e);
    SimpleObfs.DisguiseParses(data, server, e);
    SimpleObfs.DisguiseIsWhole(data, server, e);
    ForwardsAsPlanned(hello, server, plan, matcher);
  }

  lemma ForwardsAsPlanned(record: seq<Byte>, server: seq<Byte>, plan: Loaded, matcher: Matcher)
    requires |record| >= 5
    requires var h := ParseHello(record);
             && h.err.None? && h.found.sniStart >= 0 && h.found.sniLen == |server|
             && h.found.sniStart + |server| <= |record|
             && record[h.found.sniStart..h.found.sniStart + |server|] == server
    requires matcher(server).None? && plan.mode !in {ModeTlsAlert, ModeBlock} && plan.tls13Only != BoolTrue
    requires !(plan.mode == ModeTlsRf && plan.numRecords <= 1 && plan.numSegments == -1)
    ensures Judge(record, plan, matcher).Forwarded? && !Judge(record, plan, matcher).script.panics
  {
    TreatmentPanics(record, plan);
  }
}
