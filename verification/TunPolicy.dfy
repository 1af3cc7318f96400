/**
 Which policy a run of `tunPolicyConn` obeys, and what that means octet by octet: when data is held, when it passes
 untouched, when it is refused, where it is cut, and what the client is told.
 */
module TunPolicy {
  import opened Bytes
  import opened Wire
  import opened ClientHello
  import opened Fragment
  import opened Policies
  import opened Reassembly
  import opened Traces
  import opened TunBridge
  import opened TunRuns
  import opened TunDelivery

  // ----- the policy in force -----

  /** A setting of the domain policy if it is set there, otherwise that of the plan. */
  function Preferred(domain: Policy, plan: Policy, f: Setting): Value {
    if Get(domain, f) != Unset(f) then Get(domain, f) else Get(plan, f)
  }

  lemma FirstOfTwo(a: Policy, b: Policy, f: Setting)
    ensures FirstSet([a, b], f) == Preferred(a, b, f)
  {
    assert [a, b][1..] == [b] && [b][1..] == [];
    assert FirstSet([b], f) == if Get(b, f) != Unset(f) then Get(b, f) else FirstSet([], f);
  }

  /**
   The domain policy of the name in the record takes precedence over the plan, setting by setting, and what neither sets
   is normalised.
   */
  lemma DomainTakesPrecedence(record: seq<Byte>, plan: Loaded, matcher: Matcher, host: seq<Byte>, domain: Loaded, f: Setting)
    requires |record| >= 5 && ParseHello(record).err.None?
    requires Names(record, host) && host != [] && matcher(host) == Some(domain)
    ensures var p := Effective(record, plan, matcher);
            && Get(p, f) == NormalValue(f, p.mode, Preferred(domain, plan, f))
            && Treating(p.mode) == NormalValue(TheMode, ModeUnknown, Preferred(domain, plan, TheMode))
  {
    InForce(record, plan, matcher, host, domain);
    MergeIsFirstSet([domain, plan], f);
    FirstOfTwo(domain, plan, f);
    FirstOfTwo(domain, plan, TheMode);
  }

  lemma InForce(record: seq<Byte>, plan: Loaded, matcher: Matcher, host: seq<Byte>, domain: Loaded)
    requires |record| >= 5 && ParseHello(record).err.None?
    requires Names(record, host) && host != [] && matcher(host) == Some(domain)
    ensures Effective(record, plan, matcher) == Merge([domain, plan])
  {
    NamesIff(record, host);
    var f := ParseHello(record).found;
    SniInBounds(record);
    assert f.sniStart > 0 && f.sniLen == |host| > 0;
    assert Effective(record, plan, matcher) == MergeTwo(domain, plan);
  }

  /** Without a name, or without a policy for it, the plan is in force as it stands. */
  lemma PlanInForce(record: seq<Byte>, plan: Loaded, matcher: Matcher)
    requires |record| >= 5 && ParseHello(record).err.None?
    requires forall host :: Names(record, host) ==> host == [] || matcher(host).None?
    ensures Effective(record, plan, matcher) == plan
  {
    var f := ParseHello(record).found;
    SniInBounds(record);
    if f.sniStart >= 0 { NamesIff(record, record[f.sniStart..f.sniStart + f.sniLen]); }
  }

  /** The mode in force is the domain's own if it has one. */
  lemma DomainMode(record: seq<Byte>, plan: Loaded, matcher: Matcher, host: seq<Byte>, domain: Loaded)
    requires |record| >= 5 && ParseHello(record).err.None?
    requires Names(record, host) && host != [] && matcher(host) == Some(domain) && domain.mode != ModeUnknown
    ensures Effective(record, plan, matcher).mode == domain.mode
  {
    InForce(record, plan, matcher, host, domain);
    ModeOfMerge(domain, plan);
  }

  lemma ModeOfMerge(domain: Policy, plan: Policy)
    requires domain.mode != ModeUnknown
    ensures Merge([domain, plan]).mode == domain.mode
  {
    assert [domain, plan][1..] == [plan];
    assert Fold([domain, plan]) == Fill(domain, Fold([plan]));
  }

  /** A client whose first record is a ClientHello for `host`, for which there is a domain policy. */
  ghost predicate AsksFor(s: seq<Byte>, host: seq<Byte>, domain: Loaded, matcher: Matcher) {
    && Ready(s) && IsTls(s) && !Unreadable(s)
    && Names(s[..RecordEnd(s)], host) && host != [] && matcher(host) == Some(domain)
  }

  /** The plan alone does not refuse the record. */
  ghost predicate Admits(plan: Loaded, record: seq<Byte>) {
    plan.mode != ModeTlsAlert && (plan.tls13Only == BoolTrue ==> OffersKeyShare(record))
  }

  /**
   On every run a domain policy that blocks closes the connection without a word, and one that alerts sends the alert with
   the number 70 and closes, whatever admitting plan is below it.
   */
  lemma DomainRefuses(ws: seq<seq<Byte>>, left: nat, part: nat, plan: Loaded, matcher: Matcher, host: seq<Byte>, domain: Loaded)
    requires var s := Flatten(ws); AsksFor(s, host, domain, matcher) && Admits(plan, s[..RecordEnd(s)])
    requires domain.mode in {ModeBlock, ModeTlsAlert}
    ensures var s, st := Flatten(ws), Run(Fresh(left, part), ws, plan, matcher);
            var cause := if domain.mode == ModeBlock then PolicyBlocks else PolicyAlerts;
            && |s| >= 44 && st.closed && Planned(ws, plan, matcher) == RefusalOf(cause, s[9], s[10])
            && Stream(st.conn.trace) <= RefusalOctets(cause, s[9], s[10])
  {
    var s := Flatten(ws);
    var cause := if domain.mode == ModeBlock then PolicyBlocks else PolicyAlerts;
    DomainCauses(s[..RecordEnd(s)], plan, matcher, host, domain);
    RefusedBy(ws, left, part, plan, matcher, cause);
  }

  /** In particular a blocked name gives the trace of a bare close. */
  lemma BlockedIsClosed(ws: seq<seq<Byte>>, plan: Loaded, matcher: Matcher, host: seq<Byte>, domain: Loaded)
    requires var s := Flatten(ws); AsksFor(s, host, domain, matcher) && Admits(plan, s[..RecordEnd(s)])
    requires domain.mode == ModeBlock
    ensures Planned(ws, plan, matcher) == [Close]
  {
    DomainRefuses(ws, 0, 0, plan, matcher, host, domain);
  }

  /** One of any other mode lets the record through, under that mode. */
  lemma DomainForwards(record: seq<Byte>, plan: Loaded, matcher: Matcher, host: seq<Byte>, domain: Loaded)
    requires |record| >= 5 && ParseHello(record).err.None? && Admits(plan, record)
    requires Names(record, host) && host != [] && matcher(host) == Some(domain)
    requires domain.mode !in {ModeUnknown, ModeBlock, ModeTlsAlert}
    ensures Judge(record, plan, matcher).Forwarded? && Effective(record, plan, matcher).mode == domain.mode
  {
    DomainMode(record, plan, matcher, host, domain);
    DomainCauses(record, plan, matcher, host, domain);
    JudgeRefuses(record, plan, matcher);
  }

  lemma DomainCauses(record: seq<Byte>, plan: Loaded, matcher: Matcher, host: seq<Byte>, domain: Loaded)
    requires |record| >= 5 && ParseHello(record).err.None? && Admits(plan, record)
    requires Names(record, host) && host != [] && matcher(host) == Some(domain) && domain.mode != ModeUnknown
    ensures CauseOf(record, plan, matcher)
            == if domain.mode == ModeBlock then Some(PolicyBlocks) else if domain.mode == ModeTlsAlert then Some(PolicyAlerts) else None
  {
    DomainMode(record, plan, matcher, host, domain);
  }

  lemma RefusedBy(ws: seq<seq<Byte>>, left: nat, part: nat, plan: Loaded, matcher: Matcher, cause: Cause)
    requires var s := Flatten(ws); Ready(s) && IsTls(s) && !Unreadable(s) && CauseOf(s[..RecordEnd(s)], plan, matcher) == Some(cause)
    ensures var s, st := Flatten(ws), Run(Fresh(left, part), ws, plan, matcher);
            && |s| >= 44 && Planned(ws, plan, matcher) == RefusalOf(cause, s[9], s[10])
            && st.closed && Stream(st.conn.trace) <= RefusalOctets(cause, s[9], s[10])
  {
    var s := Flatten(ws);
    RefusedIff(ws, left, part, plan, matcher);
    assert s[..RecordEnd(s)][9] == s[9] && s[..RecordEnd(s)][10] == s[10];
  }

  // ----- octet by octet -----

  /** Data is held exactly while there are fewer than five octets, or a TLS handshake record is not complete. */
  lemma HeldIff(ws: seq<seq<Byte>>, left: nat, part: nat, plan: Loaded, matcher: Matcher)
    ensures var s, st := Flatten(ws), Run(Fresh(left, part), ws, plan, matcher);
            !st.handled && !st.crashed <==> |s| < 5 || (s[0] == 0x16 && s[1] == 0x03 && |s| < 5 + 256 * (s[3] as int) + s[4])
    ensures var s, st := Flatten(ws), Run(Fresh(left, part), ws, plan, matcher);
            !st.handled && !st.crashed ==> st.pending == s && st.conn.trace == [] && !st.closed
  {
    var s := Flatten(ws);
    if !Ready(s) {
      HeldBack(ws, left, part, plan, matcher);
    } else {
      EveryRun(ws, left, part, plan, matcher);
      FailingRunSendsPrefix(ws, left, part, plan, matcher);
      BrokenIsHandled(ws, left, part, plan, matcher);
    }
  }

  /** What does not start like a TLS handshake passes untouched. */
  lemma OtherProtocolsPass(ws: seq<seq<Byte>>, left: nat, part: nat, plan: Loaded, matcher: Matcher)
    requires var s := Flatten(ws); |s| >= 5 && (s[0] != 0x16 || s[1] != 0x03)
    ensures var s, conn := Flatten(ws), Run(Fresh(left, part), ws, plan, matcher).conn;
            Stream(conn.trace) <= s && (!conn.broken ==> Stream(conn.trace) == s)
  {
    HealthyExplained(ws, plan, matcher);
    FailingRunSendsPrefix(ws, left, part, plan, matcher);
    ArrivedIsPrefix(ws);
    ReadyExtends(Arrived(ws), Flatten(ws));
  }

  /** The steps that handling takes once the first record has arrived with everything in `a`. */
  function HandlingEvents(a: seq<Byte>, plan: Loaded, matcher: Matcher): seq<Event>
    requires Ready(a)
  {
    if IsTls(a) then VerdictEvents(a, Judge(a[..RecordEnd(a)], plan, matcher)) else [Send(a)]
  }

  lemma VerdictCloses(a: seq<Byte>, v: Verdict, c: ConnState)
    requires Ready(a) && IsTls(a)
    ensures HandleAs(a, c, v).0.closed <==> v.Refused? || c.left < |VerdictEvents(a, v)|
  {
  }

  /**
   A run is closed exactly when its first record was refused, or when a step failed before the record and the octets
   that arrived with it were out.  A later failure is reported but closes nothing.
   */
  lemma {:induction false} ClosedIff(ws: seq<seq<Byte>>, left: nat, part: nat, plan: Loaded, matcher: Matcher)
    ensures Ready(Flatten(ws)) ==> Ready(Arrived(ws))
    ensures Run(Fresh(left, part), ws, plan, matcher).closed
            <==> && Ready(Flatten(ws))
                 && (|| (IsTls(Arrived(ws)) && FirstVerdict(Arrived(ws), plan, matcher).Refused?)
                     || left < |HandlingEvents(Arrived(ws), plan, matcher)|)
    decreases |ws|
  {
    ArrivedIsPrefix(ws);
    if ws != [] {
      var before, w := ws[..|ws| - 1], ws[|ws| - 1];
      FlattenLast(ws);
      ClosedIff(before, left, part, plan, matcher);
      if Ready(Flatten(before)) {
        HeldIff(before, left, part, plan, matcher);
      } else {
        HeldBack(before, left, part, plan, matcher);
        EveryRun(before, left, part, plan, matcher);
        var a := Flatten(ws);
        if Ready(a) && IsTls(a) { VerdictCloses(a, Judge(a[..RecordEnd(a)], plan, matcher), NewConn(left, part)); }
      }
    }
  }

  /** What the client is told: all of its octets were accepted, unless the write was refused, panicked or failed. */
  lemma ReplyIs(st: TunState, b: seq<Byte>, plan: Loaded, matcher: Matcher)
    ensures var (next, reply) := Step(st, b, plan, matcher);
            && (reply == Panic <==> next.crashed)
            && (st.closed && !st.crashed ==> reply == Eof)
            && (!st.closed && !st.crashed ==>
                  && (reply.Accepted? ==> reply.n == |b|)
                  && (reply == WriteFailed ==> |StepEvents(st, b, plan, matcher)| > st.conn.left)
                  && (|StepEvents(st, b, plan, matcher)| <= st.conn.left && !next.closed && !next.crashed ==> reply == Accepted(|b|)))
  {
    var pending := st.pending + b;
    if !st.crashed && !st.closed && !st.handled && Ready(pending) && IsTls(pending) {
      VerdictReplies(pending, st.conn, Judge(pending[..RecordEnd(pending)], plan, matcher));
    }
  }

  lemma VerdictReplies(a: seq<Byte>, c: ConnState, v: Verdict)
    requires Ready(a) && IsTls(a)
    ensures var (next, reply) := HandleAs(a, c, v);
            && (reply == Panic <==> next.crashed) && (reply == Eof <==> v.Refused?)
            && (reply == WriteFailed <==> !v.Refused? && |VerdictEvents(a, v)| > c.left)
            && (reply.Accepted? <==> !next.crashed && !next.closed)
  {
  }

  // ----- what each mode does to the record -----

  /** A record that is let through is sent as its mode says, ahead of everything else. */
  lemma TreatedFirst(ws: seq<seq<Byte>>, plan: Loaded, matcher: Matcher)
    requires var s := Flatten(ws); Ready(s) && IsTls(s) && Judge(s[..RecordEnd(s)], plan, matcher).Forwarded?
    ensures var s := Flatten(ws);
            var record := s[..RecordEnd(s)];
            var p := Effective(record, plan, matcher);
            && Treatment(record, ParseHello(record).found, p).events <= Planned(ws, plan, matcher)
            && ParseHello(record).err.None? && SingleRecord(record)
  {
    HealthyExplained(ws, plan, matcher);
    ArrivedIsPrefix(ws);
    ReadyExtends(Arrived(ws), Flatten(ws));
  }

  /** Directly: the record as it is, in one write. */
  lemma DirectIsUntouched(record: seq<Byte>, p: Loaded)
    requires |record| >= 5 && p.mode in {ModeDirect, ModeRaw}
    ensures Treatment(record, ParseHello(record).found, p) == Script([Send(record)], false)
  {
  }

  /** Where the parser finds the name. */
  lemma FoundAt(record: seq<Byte>, host: seq<Byte>) returns (start: nat)
    requires |record| >= 5 && ParseHello(record).err.None? && Names(record, host)
    ensures var f := ParseHello(record).found; f.sniStart == start && f.sniLen == |host|
    ensures 58 <= start && SliceOk(record, start, |host|) && record[start..start + |host|] == host
  {
    NamesIff(record, host);
    SniInBounds(record);
    start := ParseHello(record).found.sniStart;
  }

  lemma DecoyAt(record: seq<Byte>, f: Found, fakeTtl: int) returns (cut: nat)
    requires SliceOk(record, f.sniStart, f.sniLen)
    ensures CutsName(record, f.sniStart, f.sniLen, cut) && f.sniStart <= cut <= |record|
    ensures DesyncScript(record, f, fakeTtl)
            == Script((if fakeTtl in {0, -1} then [ProbeTtl] else []) + [QueryTtl, Desync(record[..cut]), Send(record[cut..])], false)
  {
    cut := FindLastDotOrMidPos(record, f.sniStart, f.sniLen);
    assert [QueryTtl] + [Desync(record[..cut]), Send(record[cut..])] == [QueryTtl, Desync(record[..cut]), Send(record[cut..])];
  }

  /**
   With the decoy: a TTL probe exactly if none is configured, a query, everything before the cut behind the decoy, and
   the rest; the cut is at the last dot of the name or in its middle.
   */
  lemma DecoyIsCutInName(record: seq<Byte>, p: Loaded, host: seq<Byte>) returns (start: nat, cut: nat)
    requires |record| >= 5 && ParseHello(record).err.None? && Names(record, host) && p.mode == ModeTtlD
    ensures SliceOk(record, start, |host|) && record[start..start + |host|] == host
    ensures CutsName(record, start, |host|, cut) && start <= cut <= |record|
    ensures Treatment(record, ParseHello(record).found, p)
            == Script((if p.fakeTtl in {0, -1} then [ProbeTtl] else []) + [QueryTtl, Desync(record[..cut]), Send(record[cut..])], false)
  {
    start := FoundAt(record, host);
    cut := DecoyAt(record, ParseHello(record).found, p.fakeTtl);
  }

  /** What fragmenting does with the settings of a policy. */
  function Fragmenting(record: seq<Byte>, start: int, length: int, p: Loaded): Script
    requires |record| >= 5
  {
    SendScript(record, start, length, p.numRecords, p.numSegments, p.oob == BoolTrue, p.oobEx == BoolTrue, p.modMinorVer == BoolTrue)
  }

  lemma FragmentsNamed(record: seq<Byte>, p: Loaded, host: seq<Byte>) returns (start: nat)
    requires |record| >= 5 && ParseHello(record).err.None? && Names(record, host) && p.mode == ModeTlsRf
    ensures 58 <= start && SliceOk(record, start, |host|) && record[start..start + |host|] == host
    ensures Treatment(record, ParseHello(record).found, p) == Fragmenting(record, start, |host|, p)
  {
    start := FoundAt(record, host);
  }

  /** Fragmented into records: as many as the policy says at most, two of which meet inside the name. */
  lemma RecordsAreCutInName(record: seq<Byte>, p: Loaded, host: seq<Byte>) returns (start: nat, cut: nat, before: seq<Rec>, after: seq<Rec>)
    requires SingleRecord(record) && ParseHello(record).err.None? && Names(record, host)
    requires p.mode == ModeTlsRf && p.numRecords >= 2
    ensures 5 <= start && SliceOk(record, start, |host|) && record[start..start + |host|] == host
    ensures CutsName(record, start, |host|, cut) && start <= cut <= |record|
    ensures var script := Treatment(record, ParseHello(record).found, p);
            !script.panics && Deframe(Stream(script.events)) == Some(before + after)
    ensures before != [] && after != [] && |before + after| <= p.numRecords
    ensures Handshake(before) == record[5..cut] && Handshake(after) == record[cut..]
  {
    start := FragmentsNamed(record, p, host);
    cut, before, after := FragmentingMeets(record, start, |host|, p);
  }

  lemma FragmentingMeets(record: seq<Byte>, start: nat, length: nat, p: Loaded) returns (cut: nat, before: seq<Rec>, after: seq<Rec>)
    requires SingleRecord(record) && 58 <= start && SliceOk(record, start, length) && p.numRecords >= 2
    ensures CutsName(record, start, length, cut) && start <= cut <= |record|
    ensures var script := Fragmenting(record, start, length, p);
            !script.panics && Deframe(Stream(script.events)) == Some(before + after)
    ensures before != [] && after != [] && |before + after| <= p.numRecords
    ensures Handshake(before) == record[5..cut] && Handshake(after) == record[cut..]
  {
    cut, before, after := RecordsMeetInName(record, start, length, p.numRecords, p.numSegments,
                                            p.oob == BoolTrue, p.oobEx == BoolTrue, p.modMinorVer == BoolTrue);
    ManyRecordsReassemble(record, start, length, p.numRecords, p.numSegments,
                          p.oob == BoolTrue, p.oobEx == BoolTrue, p.modMinorVer == BoolTrue);
  }

  /** Kept as one record and cut into segments: two writes meet inside the name. */
  lemma SegmentsAreCutInName(record: seq<Byte>, p: Loaded, host: seq<Byte>)
    returns (start: nat, cut: nat, before: seq<seq<Byte>>, after: seq<seq<Byte>>)
    requires |record| >= 5 && ParseHello(record).err.None? && Names(record, host)
    requires p.mode == ModeTlsRf && p.numRecords <= 1 && p.numSegments >= 2
    ensures SliceOk(record, start, |host|) && record[start..start + |host|] == host
    ensures CutsName(record, start, |host|, cut) && start <= cut <= |record|
    ensures Writes(Treatment(record, ParseHello(record).found, p).events) == before + after
    ensures before != [] && after != []
    ensures var sent := Patched(record, p.modMinorVer == BoolTrue); Flatten(before) == sent[..cut] && Flatten(after) == sent[cut..]
  {
    start := FragmentsNamed(record, p, host);
    cut, before, after := PacketsMeetInName(record, start, |host|, p.numRecords, p.numSegments,
                                            p.oob == BoolTrue, p.oobEx == BoolTrue, p.modMinorVer == BoolTrue);
  }

  /** Urgent data is used only under a policy that asks for it. */
  lemma UrgentOnlyIfAsked(record: seq<Byte>, p: Loaded)
    requires |record| >= 5 && p.oob != BoolTrue && p.oobEx != BoolTrue
    requires !Treatment(record, ParseHello(record).found, p).panics
    ensures Urgents(Treatment(record, ParseHello(record).found, p).events) == []
  {
    var f := ParseHello(record).found;
    SniInBounds(record);
    if p.mode == ModeTlsRf {
      NoneUrgentUnasked(record, f.sniStart, f.sniLen, p.numRecords, p.numSegments, p.modMinorVer == BoolTrue);
    } else if p.mode == ModeTtlD {
      var cut := DecoyAt(record, f, p.fakeTtl);
      NoneUrgent((if p.fakeTtl in {0, -1} then [ProbeTtl] else []) + [QueryTtl, Desync(record[..cut]), Send(record[cut..])]);
    } else {
      NoneUrgent([Send(record)]);
    }
  }

  lemma {:induction false} NoneUrgent(es: seq<Event>)
    requires forall i :: 0 <= i < |es| ==> !es[i].SendUrgent?
    ensures Urgents(es) == []
  {
    if es != [] { NoneUrgent(es[1..]); }
  }
}
