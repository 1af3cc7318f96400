/**
 Which writes re-cutting makes of a record: where they are cut, which of them are urgent, and which are waited for.
 `Reassembly` says what they carry altogether; this module looks at them one by one.
 */
module Traces {
  import opened Bytes
  import opened Wire
  import opened Fragment
  import opened Reassembly

  // ----- the writes and the urgent ones among them -----

  predicate Carries(e: Event) { e.Send? || e.SendUrgent? || e.Desync? }

  /** The data of the writes, in order. */
  function Writes(es: seq<Event>): seq<seq<Byte>> {
    if es == [] then [] else (if Carries(es[0]) then [Payload(es[0])] else []) + Writes(es[1..])
  }

  function Urgents(es: seq<Event>): seq<Event> {
    if es == [] then [] else (if es[0].SendUrgent? then [es[0]] else []) + Urgents(es[1..])
  }

  lemma {:induction false} WritesAppend(a: seq<Event>, b: seq<Event>)
    ensures Writes(a + b) == Writes(a) + Writes(b) && Urgents(a + b) == Urgents(a) + Urgents(b)
  {
    if a == [] {
      assert a + b == b;
    } else {
      WritesAppend(a[1..], b);
      assert (a + b)[0] == a[0] && (a + b)[1..] == a[1..] + b;
      Associate(if Carries(a[0]) then [Payload(a[0])] else [], Writes(a[1..]), Writes(b));
      Associate(if a[0].SendUrgent? then [a[0]] else [], Urgents(a[1..]), Urgents(b));
    }
  }

  lemma WritesOfOne(e: Event)
    ensures Writes([e]) == if Carries(e) then [Payload(e)] else []
    ensures Urgents([e]) == if e.SendUrgent? then [e] else []
  {
    assert [e][1..] == [];
    assert Writes([e]) == (if Carries(e) then [Payload(e)] else []) + Writes([]);
    assert Urgents([e]) == (if e.SendUrgent? then [e] else []) + Urgents([]);
  }

  lemma WritesOfWaited(e: Event)
    requires Carries(e)
    ensures Writes([e, AwaitAck]) == [Payload(e)] && Urgents([e, AwaitAck]) == if e.SendUrgent? then [e] else []
  {
    WritesOfOne(e);
    WritesOfOne(AwaitAck);
    WritesAppend([e], [AwaitAck]);
    assert [e] + [AwaitAck] == [e, AwaitAck];
  }

  /** A packet that carries a zero octet beyond its data. */
  function Filled(p: seq<Byte>): Event { SendUrgent(p, 0x0, true) }

  /** One write per packet, each waited for, the first one urgent if asked. */
  lemma {:induction false} PacketsAt(ps: seq<seq<Byte>>, urgent: bool, i: nat)
    requires i < |ps|
    ensures var es := PacketEvents(ps, urgent);
            |es| == 2 * |ps| && es[2 * i] == (if urgent && i == 0 then Filled(ps[0]) else Send(ps[i])) && es[2 * i + 1] == AwaitAck
    decreases |ps|
  {
    var rest := PacketEvents(ps[1..], false);
    assert PacketEvents(ps, urgent) == [PacketEvent(ps[0], urgent), AwaitAck] + rest;
    if |ps| > 1 {
      PacketsAt(ps[1..], false, if i == 0 then 0 else i - 1);
    } else {
      assert ps[1..] == [];
    }
  }

  lemma {:induction false} WritesOfPackets(ps: seq<seq<Byte>>, urgent: bool)
    ensures Writes(PacketEvents(ps, urgent)) == ps
    ensures Urgents(PacketEvents(ps, urgent)) == if urgent && ps != [] then [Filled(ps[0])] else []
    decreases |ps|
  {
    if ps != [] {
      var e := PacketEvent(ps[0], urgent);
      WritesOfPackets(ps[1..], false);
      WritesOfWaited(e);
      WritesAppend([e, AwaitAck], PacketEvents(ps[1..], false));
      assert [ps[0]] + ps[1..] == ps;
    }
  }

  /** Without `oob`, `oobex` marks the last octet of the first record; it always adds a filler to the second. */
  function RecordUrgents(chunks: seq<seq<Byte>>, oob: bool, oobex: bool): seq<Event> {
    (if chunks == [] then []
     else if oob then [Filled(chunks[0])]
     else if oobex && chunks[0] != [] then [SendUrgent(chunks[0][..|chunks[0]| - 1], chunks[0][|chunks[0]| - 1], false)]
     else [])
    + if oobex && |chunks| >= 2 then [Filled(chunks[1])] else []
  }

  lemma WritesOfRecords(chunks: seq<seq<Byte>>, oob: bool, oobex: bool)
    ensures Writes(RecordEvents(chunks, oob, oobex)) == chunks
    ensures Urgents(RecordEvents(chunks, oob, oobex)) == RecordUrgents(chunks, oob, oobex)
  {
    if chunks != [] {
      var e := FirstRecordEvent(chunks[0], oob, oobex);
      FirstCarries(chunks[0], oob, oobex);
      WritesOfPackets(chunks[1..], oobex);
      WritesOfWaited(e);
      WritesAppend([e, AwaitAck], PacketEvents(chunks[1..], oobex));
      assert [chunks[0]] + chunks[1..] == chunks;
    }
  }

  lemma WritesOfTwo(e: Event, f: Event)
    requires e.SendUrgent? && f.SendUrgent?
    ensures Writes([e] + [f, AwaitAck]) == [Payload(e), Payload(f)] && Urgents([e] + [f, AwaitAck]) == [e, f]
  {
    WritesOfOne(e);
    WritesOfWaited(f);
    WritesAppend([e], [f, AwaitAck]);
  }

  /** The two writes that `oobex` makes of the first 35 octets. */
  function LeadWrites(d: seq<Byte>, oobex: bool): seq<seq<Byte>> {
    if oobex && |d| >= 35 then [d[..16], d[16..35]] else []
  }

  function LeadUrgents(d: seq<Byte>, oobex: bool): seq<Event> {
    if oobex && |d| >= 35 then [SendUrgent(d[..15], d[15], false), Filled(d[16..35])] else []
  }

  lemma WritesOfLead(d: seq<Byte>, oobex: bool)
    ensures Writes(LeadEvents(d, oobex)) == LeadWrites(d, oobex) && Urgents(LeadEvents(d, oobex)) == LeadUrgents(d, oobex)
  {
    if Leads(d, oobex) {
      var e, f := SendUrgent(d[..15], d[15], false), Filled(d[16..35]);
      assert UrgentHead(d) == [e] + [f, AwaitAck];
      assert Payload(e) == d[..16] && Payload(f) == d[16..35];
      WritesOfTwo(e, f);
    }
  }

  // ----- what a script writes -----

  /** The data behind the head, in one piece or in several, and whether the first of several carries a filler. */
  function RestUrgents(pieces: seq<seq<Byte>>, oob: bool): seq<Event> {
    if oob && pieces != [] then [Filled(pieces[0])] else []
  }

  /** One record: in one write, or cut around the middle of the name into pieces. */
  lemma OneRecordWrites(hello: seq<Byte>, offset: int, length: int, segments: int, oob: bool, oobex: bool)
    requires segments >= 1 && !OneRecordScript(hello, offset, length, segments, oob, oobex).panics
    ensures var es := OneRecordScript(hello, offset, length, segments, oob, oobex).events;
            var body, start := AfterLead(hello, oobex), if Leads(hello, oobex) then offset - 35 else offset;
            if segments == 1 then
              Writes(es) == LeadWrites(hello, oobex) + [body] && Urgents(es) == LeadUrgents(hello, oobex)
            else
              && SliceOk(body, start, length)
              && var pieces := CutPackets(body, start, length, segments);
              Writes(es) == LeadWrites(hello, oobex) + pieces && Urgents(es) == LeadUrgents(hello, oobex) + RestUrgents(pieces, oob)
  {
    var body, start := AfterLead(hello, oobex), if Leads(hello, oobex) then offset - 35 else offset;
    WritesOfLead(hello, oobex);
    if segments == 1 {
      WritesOfOne(Send(body));
      WritesAppend(LeadEvents(hello, oobex), [Send(body)]);
    } else {
      var pieces := CutPackets(body, start, length, segments);
      WritesOfPackets(pieces, oob);
      WritesAppend(LeadEvents(hello, oobex), PacketEvents(pieces, oob));
    }
  }

  /** Several records: one write each, or all of them merged and cut into equal pieces behind the head. */
  lemma ManyRecordsWrite(hello: seq<Byte>, offset: int, length: int, records: nat, segments: int, oob: bool, oobex: bool)
    requires |hello| >= 5 && records >= 2 && (segments == -1 || segments >= 1)
    requires 58 <= offset && SliceOk(hello, offset, length)
    ensures var es := ManyRecordsScript(hello, offset, length, records, segments, oob, oobex).events;
            var chunks := Framed(hello[..3], Fragments(hello, FindLastDotOrMidPos(hello, offset, length), records));
            var merged := Flatten(chunks);
            var body := AfterLead(merged, oobex);
            if segments == -1 then
              Writes(es) == chunks && Urgents(es) == RecordUrgents(chunks, oob, oobex)
            else if segments == 1 || |body| <= segments then
              Writes(es) == LeadWrites(merged, oobex) + [body] && Urgents(es) == LeadUrgents(merged, oobex)
            else
              && Writes(es) == LeadWrites(merged, oobex) + Split(body, segments)
              && Urgents(es) == LeadUrgents(merged, oobex) + RestUrgents(Split(body, segments), oob)
  {
    var chunks := Framed(hello[..3], Fragments(hello, FindLastDotOrMidPos(hello, offset, length), records));
    if segments == -1 {
      WritesOfRecords(chunks, oob, oobex);
    } else {
      var merged := Flatten(chunks);
      var body := AfterLead(merged, oobex);
      WritesOfLead(merged, oobex);
      WritesOfOne(Send(body));
      WritesOfPackets(Split(body, segments), oob);
      WritesAppend(LeadEvents(merged, oobex), [Send(body)]);
      WritesAppend(LeadEvents(merged, oobex), PacketEvents(Split(body, segments), oob));
    }
  }

  /** Urgent data is used only if asked for. */
  lemma NoneUrgentUnasked(hello: seq<Byte>, offset: int, length: int, records: nat, segments: int, modMinorVer: bool)
    requires |hello| >= 5 && segments >= -1 && Reportable(hello, offset, length)
    requires !SendScript(hello, offset, length, records, segments, false, false, modMinorVer).panics
    ensures Urgents(SendScript(hello, offset, length, records, segments, false, false, modMinorVer).events) == []
  {
    var h, s := Patched(hello, modMinorVer), if segments == 0 then 1 else segments;
    PanicsExactlyWhen(hello, offset, length, records, segments, false, false, modMinorVer);
    if records <= 1 {
      OneRecordWrites(h, offset, length, s, false, false);
    } else {
      ManyRecordsWrite(h, offset, length, records, s, false, false);
    }
  }

  // ----- where the name is cut -----

  lemma CutShifted(data: seq<Byte>, d: nat, start: int, len: int, cut: int)
    requires d <= |data| && SliceOk(data[d..], start, len) && CutsName(data[d..], start, len, cut)
    ensures SliceOk(data, start + d, len) && CutsName(data, start + d, len, cut + d)
  {
    assert forall i :: start <= i < start + len ==> data[d..][i] == data[i + d];
    assert forall i :: start + d <= i < start + d + len ==> data[i] == data[d..][i - d];
  }

  lemma CutPatched(hello: seq<Byte>, modMinorVer: bool, start: int, len: int, cut: int)
    requires |hello| >= 5 && start >= 5 && SliceOk(hello, start, len) && CutsName(Patched(hello, modMinorVer), start, len, cut)
    ensures CutsName(hello, start, len, cut)
  {
    var h := Patched(hello, modMinorVer);
    assert forall i :: start <= i < start + len ==> hello[i] == h[i];
  }

  /** With several records, two of them meet at the last dot of the name, or in its middle. */
  lemma RecordsMeetInName(hello: seq<Byte>, offset: int, length: int, records: nat, segments: int,
                          oob: bool, oobex: bool, modMinorVer: bool)
    returns (cut: nat, before: seq<Rec>, after: seq<Rec>)
    requires SingleRecord(hello) && 58 <= offset && SliceOk(hello, offset, length) && records >= 2 && segments >= -1
    ensures CutsName(hello, offset, length, cut) && offset <= cut <= |hello|
    ensures Deframe(Stream(SendScript(hello, offset, length, records, segments, oob, oobex, modMinorVer).events)) == Some(before + after)
    ensures before != [] && after != [] && Handshake(before) == hello[5..cut] && Handshake(after) == hello[cut..]
  {
    cut := FindLastDotOrMidPos(hello, offset, length);
    var header := Patched(hello, modMinorVer)[..3];
    assert Deframe(Stream(SendScript(hello, offset, length, records, segments, oob, oobex, modMinorVer).events))
        == Some(Recs(header, Fragments(hello, cut, records))) by {
      ManyRecordsReassemble(hello, offset, length, records, segments, oob, oobex, modMinorVer);
    }
    before, after := FragmentsMeet(hello, cut, records, header);
  }

  lemma FragmentsMeet(hello: seq<Byte>, cut: nat, records: nat, header: seq<Byte>) returns (before: seq<Rec>, after: seq<Rec>)
    requires 5 <= cut <= |hello| && records >= 2
    ensures Recs(header, Fragments(hello, cut, records)) == before + after
    ensures before != [] && after != [] && Handshake(before) == hello[5..cut] && Handshake(after) == hello[cut..]
  {
    var left, right := Split(hello[5..cut], records / 2), Split(hello[cut..], records - records / 2);
    before, after := Recs(header, left), Recs(header, right);
    HandshakeOfRecs(header, left);
    HandshakeOfRecs(header, right);
    RecsAppend(header, left, right);
  }

  lemma RecsAppend(header: seq<Byte>, left: seq<seq<Byte>>, right: seq<seq<Byte>>)
    ensures Recs(header, left + right) == Recs(header, left) + Recs(header, right)
  {
  }

  /** The pieces of the body meet at its cut. */
  lemma PiecesMeet(body: seq<Byte>, start: int, length: int, segments: nat)
    returns (mid: nat, before: seq<seq<Byte>>, after: seq<seq<Byte>>)
    requires SliceOk(body, start, length) && segments >= 2
    ensures start <= mid <= |body| && CutsName(body, start, length, mid)
    ensures CutPackets(body, start, length, segments) == before + after
    ensures before != [] && after != [] && Flatten(before) == body[..mid] && Flatten(after) == body[mid..]
  {
    mid := FindLastDotOrMidPos(body, start, length);
    before, after := Split(body[..mid], segments / 2), Split(body[mid..], segments - segments / 2);
  }

  /** With one record in several segments, two writes meet there. */
  lemma PacketsMeetInName(hello: seq<Byte>, offset: int, length: int, records: nat, segments: int,
                          oob: bool, oobex: bool, modMinorVer: bool)
    returns (cut: nat, before: seq<seq<Byte>>, after: seq<seq<Byte>>)
    requires |hello| >= 5 && 58 <= offset && SliceOk(hello, offset, length) && records <= 1 && segments >= 2
    ensures CutsName(hello, offset, length, cut) && offset <= cut <= |hello|
    ensures Writes(SendScript(hello, offset, length, records, segments, oob, oobex, modMinorVer).events) == before + after
    ensures before != [] && after != []
    ensures Flatten(before) == Patched(hello, modMinorVer)[..cut] && Flatten(after) == Patched(hello, modMinorVer)[cut..]
  {
    var h := Patched(hello, modMinorVer);
    var skipped := if Leads(h, oobex) then 35 else 0;
    OneRecordWrites(h, offset, length, segments, oob, oobex);
    assert AfterLead(h, oobex) == h[skipped..];
    LeadIsHead(h, oobex);
    cut, before, after := ShiftedMeet(h, skipped, offset - skipped, length, segments, LeadWrites(h, oobex));
    CutPatched(hello, modMinorVer, offset, length, cut);
  }

  lemma ShiftedMeet(h: seq<Byte>, skipped: nat, start: int, length: int, segments: nat, lead: seq<seq<Byte>>)
    returns (cut: nat, before: seq<seq<Byte>>, after: seq<seq<Byte>>)
    requires skipped <= |h| && SliceOk(h[skipped..], start, length) && segments >= 2 && Flatten(lead) == h[..skipped]
    ensures start + skipped <= cut <= |h| && CutsName(h, start + skipped, length, cut)
    ensures lead + CutPackets(h[skipped..], start, length, segments) == before + after
    ensures before != [] && after != [] && Flatten(before) == h[..cut] && Flatten(after) == h[cut..]
  {
    var mid, left, right := PiecesMeet(h[skipped..], start, length, segments);
    assert CutsName(h, start + skipped, length, mid + skipped) by { CutShifted(h, skipped, start, length, mid); }
    cut, before, after := mid + skipped, lead + left, right;
    assert lead + (left + right) == before + after by { Associate(lead, left, right); }
    assert Flatten(before) == h[..skipped] + h[skipped..][..mid] by { FlattenAppend(lead, left); }
    Regrouped(h, skipped, mid);
  }

  lemma Regrouped(h: seq<Byte>, skipped: nat, mid: nat)
    requires skipped + mid <= |h|
    ensures h[..skipped] + h[skipped..][..mid] == h[..skipped + mid] && h[skipped..][mid..] == h[skipped + mid..]
  {
  }

  lemma LeadIsHead(d: seq<Byte>, oobex: bool)
    ensures Flatten(LeadWrites(d, oobex)) == d[..if Leads(d, oobex) then 35 else 0]
  {
    if Leads(d, oobex) {
      var ws := LeadWrites(d, oobex);
      assert ws == [d[..16]] + [d[16..35]];
      FlattenOne(d[..16]);
      FlattenOne(d[16..35]);
      FlattenAppend([d[..16]], [d[16..35]]);
      assert d[..16] + d[16..35] == d[..35];
    }
  }
}
