/**
 What a peer gets out of a fragmented ClientHello: records are reassembled as section 5.1 of RFC 8446
 prescribes, and the handshake octets must come out unchanged.
 */
module Reassembly {
  import opened Bytes
  import opened Wire
  import opened Fragment

  // ----- the receiver -----

  datatype Rec = Rec(header: seq<Byte>, fragment: seq<Byte>)

  /** The record layer of a receiver: a 3-octet head, a length, that many octets, and so on to the end. */
  function Deframe(s: seq<Byte>): Option<seq<Rec>> {
    if s == [] then Some([])
    else if |s| < 5 || |s| < 5 + U16At(s, 3) then None
    else
      var n := U16At(s, 3);
      match Deframe(s[5 + n..])
      case None => None
      case Some(rest) => Some([Rec(s[..3], s[5..5 + n])] + rest)
  }

  function Handshake(recs: seq<Rec>): seq<Byte> {
    if recs == [] then [] else recs[0].fragment + Handshake(recs[1..])
  }

  function Recs(header: seq<Byte>, parts: seq<seq<Byte>>): (r: seq<Rec>)
    ensures |r| == |parts|
    ensures forall i :: 0 <= i < |r| ==> r[i] == Rec(header, parts[i])
  {
    seq(|parts|, i requires 0 <= i < |parts| => Rec(header, parts[i]))
  }

  lemma {:induction false} HandshakeOfRecs(header: seq<Byte>, parts: seq<seq<Byte>>)
    ensures Handshake(Recs(header, parts)) == Flatten(parts)
  {
    if parts != [] {
      HandshakeOfRecs(header, parts[1..]);
      assert Recs(header, parts)[1..] == Recs(header, parts[1..]);
    }
  }

  lemma HandshakeOfOne(header: seq<Byte>, fragment: seq<Byte>)
    ensures Handshake([Rec(header, fragment)]) == fragment
  {
    var one := [Rec(header, fragment)];
    assert Handshake(one) == one[0].fragment + Handshake(one[1..]);
  }

  lemma RecordSlices(header: seq<Byte>, p: seq<Byte>, rest: seq<Byte>)
    requires |header| == 3 && |p| < 65536
    ensures var s := Record(header, p) + rest;
            |s| >= 5 + |p| && U16At(s, 3) == |p| && s[..3] == header && s[5..5 + |p|] == p && s[5 + |p|..] == rest
  {
    var s := Record(header, p) + rest;
    assert s[3..] == PutU16(|p|) + (p + rest);
    U16Suffix(s, 3, |p|, p + rest);
  }

  lemma DeframeStep(s: seq<Byte>, header: seq<Byte>, p: seq<Byte>, rest: seq<Byte>)
    requires |s| >= 5 + |p| && U16At(s, 3) == |p| && s[..3] == header && s[5..5 + |p|] == p && s[5 + |p|..] == rest
    requires Deframe(rest).Some?
    ensures Deframe(s) == Some([Rec(header, p)] + Deframe(rest).value)
  {
  }

  lemma DeframeOne(header: seq<Byte>, p: seq<Byte>, rest: seq<Byte>)
    requires |header| == 3 && |p| < 65536 && Deframe(rest).Some?
    ensures Deframe(Record(header, p) + rest) == Some([Rec(header, p)] + Deframe(rest).value)
  {
    DeframeStep(Record(header, p) + rest, header, p, rest) by { RecordSlices(header, p, rest); }
  }

  lemma {:induction false} DeframeFramed(header: seq<Byte>, parts: seq<seq<Byte>>)
    requires |header| == 3 && forall i :: 0 <= i < |parts| ==> |parts[i]| < 65536
    ensures Deframe(Flatten(Framed(header, parts))) == Some(Recs(header, parts))
  {
    if parts != [] {
      DeframeFramed(header, parts[1..]);
      var rest := Flatten(Framed(header, parts[1..]));
      DeframeOne(header, parts[0], rest);
      assert Framed(header, parts)[1..] == Framed(header, parts[1..]);
      assert Recs(header, parts) == [Rec(header, parts[0])] + Recs(header, parts[1..]);
    }
  }

  // ----- what each kind of sending carries -----

  lemma {:induction false} StreamOfPackets(ps: seq<seq<Byte>>, urgent: bool)
    ensures Stream(PacketEvents(ps, urgent)) == Flatten(ps)
  {
    if ps != [] {
      var two := [PacketEvent(ps[0], urgent), AwaitAck];
      StreamOfPackets(ps[1..], false);
      StreamAppend(two, PacketEvents(ps[1..], false));
      StreamOfPair(two[0]);
    }
  }

  lemma StreamOfPair(e: Event)
    ensures Stream([e, AwaitAck]) == Payload(e)
    ensures Stream([e]) == Payload(e)
  {
    assert [e, AwaitAck][1..] == [AwaitAck];
    assert Stream([AwaitAck]) == Payload(AwaitAck) + Stream([]);
    assert Stream([e]) == Payload(e) + Stream([]);
  }

  lemma FirstCarries(chunk: seq<Byte>, oob: bool, oobex: bool)
    ensures Payload(FirstRecordEvent(chunk, oob, oobex)) == chunk
  {
    if |chunk| > 0 { assert chunk[..|chunk| - 1] + [chunk[|chunk| - 1]] == chunk; }
  }

  lemma StreamOfRecords(chunks: seq<seq<Byte>>, oob: bool, oobex: bool)
    ensures Stream(RecordEvents(chunks, oob, oobex)) == Flatten(chunks)
  {
    if chunks != [] {
      var first := FirstRecordEvent(chunks[0], oob, oobex);
      StreamOfPackets(chunks[1..], oobex);
      StreamAppend([first, AwaitAck], PacketEvents(chunks[1..], oobex));
      StreamOfPair(first);
      FirstCarries(chunks[0], oob, oobex);
    }
  }

  lemma StreamOfLead(d: seq<Byte>, oobex: bool)
    ensures Stream(LeadEvents(d, oobex)) + AfterLead(d, oobex) == d
  {
    if Leads(d, oobex) {
      var e1 := SendUrgent(d[..15], d[15], false);
      var two := [SendUrgent(d[16..35], 0x0, true), AwaitAck];
      assert UrgentHead(d) == [e1] + two;
      StreamAppend([e1], two);
      StreamOfPair(e1);
      StreamOfPair(two[0]);
      assert d[..15] + [d[15]] + d[16..35] + d[35..] == d;
    }
  }

  lemma StreamOfMerged(merged: seq<Byte>, segments: nat, oob: bool, oobex: bool)
    requires segments >= 1
    ensures Stream(MergedEvents(merged, segments, oob, oobex)) == merged
  {
    var head, body := LeadEvents(merged, oobex), AfterLead(merged, oobex);
    StreamOfLead(merged, oobex);
    if segments == 1 || |body| <= segments {
      StreamAppend(head, [Send(body)]);
      StreamOfPair(Send(body));
    } else {
      StreamAppend(head, PacketEvents(Split(body, segments), oob));
      StreamOfPackets(Split(body, segments), oob);
    }
  }

  lemma CutPacketsWhole(body: seq<Byte>, start: int, length: int, segments: nat)
    requires SliceOk(body, start, length) && segments >= 2
    ensures Flatten(CutPackets(body, start, length, segments)) == body
  {
    var cut := FindLastDotOrMidPos(body, start, length);
    FlattenAppend(Split(body[..cut], segments / 2), Split(body[cut..], segments - segments / 2));
    assert body[..cut] + body[cut..] == body;
  }

  lemma StreamOfOneRecord(hello: seq<Byte>, offset: int, length: int, segments: int, oob: bool, oobex: bool)
    requires segments >= 1 && !OneRecordScript(hello, offset, length, segments, oob, oobex).panics
    ensures Stream(OneRecordScript(hello, offset, length, segments, oob, oobex).events) == hello
  {
    var head, body := LeadEvents(hello, oobex), AfterLead(hello, oobex);
    var start := if Leads(hello, oobex) then offset - 35 else offset;
    StreamOfLead(hello, oobex);
    if segments == 1 {
      StreamAppend(head, [Send(body)]);
      StreamOfPair(Send(body));
    } else {
      var packets := CutPackets(body, start, length, segments);
      CutPacketsWhole(body, start, length, segments);
      StreamAppend(head, PacketEvents(packets, oob));
      StreamOfPackets(packets, oob);
    }
  }

  // ----- the theorems -----

  /** One complete record and nothing else. */
  predicate SingleRecord(hello: seq<Byte>) {
    |hello| >= 5 && U16At(hello, 3) + 5 == |hello|
  }

  /** The ranges the ClientHello parser can report. */
  predicate Reportable(hello: seq<Byte>, offset: int, length: int) {
    (offset == -1 && length == 0) || (58 <= offset && 0 <= length && offset + length <= |hello|)
  }

  /**
   Run-time panics, exactly: a negative capacity when one record is to be cut into "one segment per record",
   and a slice at -1 when a cut is needed but no server name was found.
   */
  lemma PanicsExactlyWhen(hello: seq<Byte>, offset: int, length: int, records: nat, segments: int,
                          oob: bool, oobex: bool, modMinorVer: bool)
    requires |hello| >= 5 && segments >= -1 && Reportable(hello, offset, length)
    ensures SendScript(hello, offset, length, records, segments, oob, oobex, modMinorVer).panics
            <==> (records <= 1 && segments == -1) || (offset == -1 && !(records <= 1 && segments in {0, 1}))
  {
  }

  lemma PieceLengths(parts: seq<seq<Byte>>, i: nat)
    requires i < |parts|
    ensures |Flatten(parts[..i])| + |parts[i]| == |Flatten(parts[..i + 1])| <= |Flatten(parts)|
  {
    Around(parts, i);
    FlattenSnoc(parts[..i], parts[i]);
    FlattenAppend(parts[..i + 1], parts[i + 1..]);
  }

  predicate AllFilled(parts: seq<seq<Byte>>) {
    forall i :: 0 <= i < |parts| ==> |parts[i]| >= 1
  }

  lemma FragmentsOf(hello: seq<Byte>, cut: nat, records: nat)
    requires SingleRecord(hello) && 5 <= cut <= |hello| && records >= 2
    ensures var parts := Fragments(hello, cut, records);
            && Flatten(parts) == hello[5..]
            && 2 <= |parts| <= records
            && (forall i :: 0 <= i < |parts| ==> |parts[i]| < 65536)
            && (5 < cut ==> (AllFilled(parts) <==> cut < |hello|))
  {
    assert hello[5..cut] + hello[cut..] == hello[5..];
    var left, right := Split(hello[5..cut], records / 2), Split(hello[cut..], records - records / 2);
    if cut == |hello| { assert (left + right)[|left|] == right[0] == hello[cut..] == []; }
    PartsOf(Split(hello[5..cut], records / 2), Split(hello[cut..], records - records / 2), hello[5..]);
  }

  lemma PartsOf(a: seq<seq<Byte>>, b: seq<seq<Byte>>, text: seq<Byte>)
    requires Flatten(a) + Flatten(b) == text && |text| < 65536
    ensures Flatten(a + b) == text
    ensures forall i :: 0 <= i < |a + b| ==> |(a + b)[i]| < 65536
  {
    FlattenAppend(a, b);
    forall i | 0 <= i < |a + b| ensures |(a + b)[i]| < 65536 { PieceLengths(a + b, i); }
  }

  lemma StreamOfManyRecords(hello: seq<Byte>, offset: int, length: int, records: nat, segments: int, oob: bool, oobex: bool)
    requires |hello| >= 5 && records >= 2 && (segments == -1 || segments >= 1)
    requires 58 <= offset && SliceOk(hello, offset, length)
    ensures var s := ManyRecordsScript(hello, offset, length, records, segments, oob, oobex);
            var cut := FindLastDotOrMidPos(hello, offset, length);
            !s.panics && Stream(s.events) == Flatten(Framed(hello[..3], Fragments(hello, cut, records)))
  {
    var chunks := Framed(hello[..3], Fragments(hello, FindLastDotOrMidPos(hello, offset, length), records));
    if segments == -1 {
      StreamOfRecords(chunks, oob, oobex);
    } else {
      StreamOfMerged(Flatten(chunks), segments, oob, oobex);
    }
  }

  /** With several records: what the receiver reassembles, record by record. */
  lemma ManyRecordsReassemble(hello: seq<Byte>, offset: int, length: int, records: nat, segments: int,
                              oob: bool, oobex: bool, modMinorVer: bool)
    requires SingleRecord(hello) && 58 <= offset && SliceOk(hello, offset, length)
    requires records >= 2 && segments >= -1
    ensures var s := SendScript(hello, offset, length, records, segments, oob, oobex, modMinorVer);
            var parts := Fragments(hello, FindLastDotOrMidPos(hello, offset, length), records);
            && !s.panics
            && Deframe(Stream(s.events)) == Some(Recs(Patched(hello, modMinorVer)[..3], parts))
            && Flatten(parts) == hello[5..]
            && 2 <= |parts| <= records
            && (AllFilled(parts) <==> offset < |hello|)
  {
    var h := Patched(hello, modMinorVer);
    assert h[offset..offset + length] == hello[offset..offset + length];
    var cut := FindLastDotOrMidPos(hello, offset, length);
    assert FindLastDotOrMidPos(h, offset, length) == cut;
    assert h[5..cut] == hello[5..cut] && h[cut..] == hello[cut..];
    FragmentsOf(hello, cut, records);
    StreamOfManyRecords(h, offset, length, records, if segments == 0 then 1 else segments, oob, oobex);
    DeframeFramed(h[..3], Fragments(hello, cut, records));
  }

  /** With one record the octets on the wire are those of the record, apart from the patched version. */
  lemma OneRecordIsIdentical(hello: seq<Byte>, offset: int, length: int, records: nat, segments: int,
                             oob: bool, oobex: bool, modMinorVer: bool)
    requires |hello| >= 5 && records <= 1 && segments >= -1
    requires !SendScript(hello, offset, length, records, segments, oob, oobex, modMinorVer).panics
    ensures Stream(SendScript(hello, offset, length, records, segments, oob, oobex, modMinorVer).events)
            == Patched(hello, modMinorVer)
  {
    StreamOfOneRecord(Patched(hello, modMinorVer), offset, length, if segments == 0 then 1 else segments, oob, oobex);
  }

  lemma DeframeSingle(hello: seq<Byte>)
    requires SingleRecord(hello)
    ensures Deframe(hello) == Some([Rec(hello[..3], hello[5..])])
  {
    DeframeOne(hello[..3], hello[5..], []);
    PutU16At(hello, 3);
    assert hello == hello[..3] + hello[3..5] + hello[5..];
    assert Record(hello[..3], hello[5..]) + [] == hello;
    assert Deframe([]) == Some([]);
    var one := [Rec(hello[..3], hello[5..])];
    assert one + [] == one;
  }

  /** What a peer makes of records: all with the same header, and together the handshake octets. */
  predicate Reassembles(recs: seq<Rec>, header: seq<Byte>, payload: seq<Byte>) {
    Handshake(recs) == payload && forall i :: 0 <= i < |recs| ==> recs[i].header == header
  }

  predicate NoneEmpty(recs: seq<Rec>) {
    forall i :: 0 <= i < |recs| ==> |recs[i].fragment| >= 1
  }

  lemma RecsReassemble(header: seq<Byte>, parts: seq<seq<Byte>>)
    ensures Reassembles(Recs(header, parts), header, Flatten(parts))
    ensures NoneEmpty(Recs(header, parts)) <==> AllFilled(parts)
  {
    HandshakeOfRecs(header, parts);
    forall i | 0 <= i < |parts| ensures Recs(header, parts)[i].fragment == parts[i] {
    }
  }

  lemma OneReassembles(hello: seq<Byte>, modMinorVer: bool)
    requires SingleRecord(hello)
    ensures var d := Deframe(Patched(hello, modMinorVer));
            && d.Some? && |d.value| == 1 && Reassembles(d.value, Patched(hello, modMinorVer)[..3], hello[5..])
            && (NoneEmpty(d.value) <==> |hello| > 5)
  {
    var h := Patched(hello, modMinorVer);
    DeframeSingle(h);
    HandshakeOfOne(h[..3], h[5..]);
    assert h[5..] == hello[5..];
    assert Deframe(h).value[0].fragment == h[5..];
  }

  /**
   Main theorem: whenever sending does not panic, the receiver reassembles exactly the handshake octets of the
   original record, out of records that all carry its (possibly patched) head.
   */
  lemma HandshakePreserved(hello: seq<Byte>, offset: int, length: int, records: nat, segments: int,
                           oob: bool, oobex: bool, modMinorVer: bool)
    requires SingleRecord(hello) && Reportable(hello, offset, length) && segments >= -1
    requires !SendScript(hello, offset, length, records, segments, oob, oobex, modMinorVer).panics
    ensures var d := Deframe(Stream(SendScript(hello, offset, length, records, segments, oob, oobex, modMinorVer).events));
            && d.Some? && Reassembles(d.value, Patched(hello, modMinorVer)[..3], hello[5..])
            && (if records <= 1 then |d.value| == 1 else 2 <= |d.value| <= records)
            && (NoneEmpty(d.value) <==> if records <= 1 then |hello| > 5 else offset < |hello|)
  {
    if records <= 1 {
      OneRecordIsIdentical(hello, offset, length, records, segments, oob, oobex, modMinorVer);
      OneReassembles(hello, modMinorVer);
    } else {
      assert offset >= 58 by { PanicsExactlyWhen(hello, offset, length, records, segments, oob, oobex, modMinorVer); }
      ManyRecordsReassemble(hello, offset, length, records, segments, oob, oobex, modMinorVer);
      RecsReassemble(Patched(hello, modMinorVer)[..3], Fragments(hello, FindLastDotOrMidPos(hello, offset, length), records));
    }
  }

  // ----- hiding the server name -----

  /** Record `i` of `parts` spans all of `hello[s..e]`; record payloads start at octet 5 of the original. */
  predicate Holds(parts: seq<seq<Byte>>, i: nat, s: nat, e: nat)
    requires i < |parts|
  {
    5 + |Flatten(parts[..i])| <= s && e <= 5 + |Flatten(parts[..i + 1])|
  }

  predicate Torn(parts: seq<seq<Byte>>, s: nat, e: nat) {
    forall i :: 0 <= i < |parts| ==> !Holds(parts, i, s, e)
  }

  /** Nothing before the cut or behind it holds octets on both sides. */
  lemma CutTears(left: seq<seq<Byte>>, right: seq<seq<Byte>>, s: nat, e: nat)
    requires s < 5 + |Flatten(left)| < e
    ensures Torn(left + right, s, e)
  {
    var parts := left + right;
    forall i | 0 <= i < |parts| ensures !Holds(parts, i, s, e) {
      if i < |left| {
        assert parts[..i + 1] == left[..i + 1];
        PieceLengths(left, i);
      } else {
        assert parts[..i] == left + right[..i - |left|];
        FlattenAppend(left, right[..i - |left|]);
      }
    }
  }

  /** A name that starts at the cut is torn exactly when it outgrows the piece that starts there. */
  lemma TornAtCut(left: seq<seq<Byte>>, right: seq<seq<Byte>>, s: nat, e: nat)
    requires s == 5 + |Flatten(left)| <= e && right != [] && |right[0]| >= 1
    ensures Torn(left + right, s, e) <==> s + |right[0]| < e
  {
    var parts, k := left + right, |left|;
    assert parts[..k] == left && parts[..k + 1] == left + [right[0]];
    FlattenSnoc(left, right[0]);
    if s + |right[0]| < e {
      forall i | 0 <= i < |parts| ensures !Holds(parts, i, s, e) {
        if i < k {
          assert parts[..i + 1] == left[..i + 1];
          PieceLengths(left, i);
        } else if i > k {
          assert parts[..i] == (left + [right[0]]) + parts[k + 1..i];
          FlattenAppend(left + [right[0]], parts[k + 1..i]);
        }
      }
    } else {
      assert Holds(parts, k, s, e);
    }
  }

  lemma FirstPiece(data: seq<Byte>, n: nat)
    requires n >= 1
    ensures |Split(data, n)| >= 1
    ensures |Split(data, n)[0]| == if 2 <= n <= |data| then |data| / n else |data|
  {
    if 2 <= n <= |data| {
      TimesFits(|data|, n);
      ChopAt(data, |data| / n, n, 0);
    }
  }

  /**
   No record holds the whole name exactly when the cut falls inside it (it has two octets or more and its last dot is
   not its first octet), or when the first piece behind the cut is too short for it.
   */
  lemma NameIsTorn(hello: seq<Byte>, offset: nat, length: nat, records: nat)
    requires SingleRecord(hello) && 58 <= offset && offset + length <= |hello| && records >= 2
    ensures var parts := Fragments(hello, FindLastDotOrMidPos(hello, offset, length), records);
            var m, rest := records - records / 2, |hello| - offset;
            Torn(parts, offset, offset + length)
            <==> || (length >= 2 && LastDot(hello[offset..offset + length]) != 0)
                 || (2 <= m <= rest && rest / m < length)
  {
    var cut, m := FindLastDotOrMidPos(hello, offset, length), records - records / 2;
    var left := Split(hello[5..cut], records / 2);
    assert |Flatten(left)| == cut - 5;
    if length >= 2 && LastDot(hello[offset..offset + length]) != 0 {
      CutTears(left, Split(hello[cut..], m), offset, offset + length);
    } else {
      assert cut == offset;
      NameAtCut(left, hello[cut..], m, offset, length);
    }
  }

  lemma NameAtCut(left: seq<seq<Byte>>, data: seq<Byte>, m: nat, s: nat, length: nat)
    requires s == 5 + |Flatten(left)| && m >= 1 && length <= |data|
    ensures Torn(left + Split(data, m), s, s + length) <==> 2 <= m <= |data| && |data| / m < length
  {
    FirstPiece(data, m);
    var right := Split(data, m);
    if data == [] {
      NothingIsHeld(left, right, s);
    } else {
      TornAtCut(left, right, s, s + length);
    }
  }

  lemma NothingIsHeld(left: seq<seq<Byte>>, right: seq<seq<Byte>>, s: nat)
    requires s == 5 + |Flatten(left)| && right != []
    ensures !Torn(left + right, s, s)
  {
    var parts, k := left + right, |left|;
    assert parts[..k] == left;
    PieceLengths(parts, k);
    assert Holds(parts, k, s, s);
  }
}
