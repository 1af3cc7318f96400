/**
 Re-cutting one TLS record into several records and several TCP writes.

 `SendScript` lists the steps `sendRecords` performs on a healthy connection; the method `SendRecords`
 performs exactly those.  The theorems say what a peer that reassembles records (section 5.1 of RFC 8446)
 gets out of them.
 */
module Fragment {
  import opened Bytes
  import opened Wire

  // ----- the cut inside the server name -----

  /** Index of the last dot, or -1. */
  function LastDot(name: seq<Byte>): (r: int)
    ensures -1 <= r < |name|
    ensures r >= 0 ==> name[r] == '.' as int
    ensures forall j :: r < j < |name| ==> name[j] != '.' as int
  {
    if name == [] then -1
    else if name[|name| - 1] == '.' as int then |name| - 1
    else LastDot(name[..|name| - 1])
  }

  predicate SliceOk(data: seq<Byte>, start: int, len: int) {
    0 <= start && 0 <= len && start + len <= |data|
  }

  predicate HasDot(data: seq<Byte>, start: int, end: int)
    requires 0 <= start <= end <= |data|
  {
    exists i :: start <= i < end && data[i] == '.' as int
  }

  /** Where a name is to be cut: right before its last dot, or in the middle if it has none. */
  predicate CutsName(data: seq<Byte>, start: int, len: int, cut: int)
    requires SliceOk(data, start, len)
  {
    if HasDot(data, start, start + len) then
      start <= cut < start + len && data[cut] == '.' as int && !HasDot(data, cut + 1, start + len)
    else
      var left, right := cut - start, start + len - cut;
      0 <= left <= right <= left + 1
  }

  function FindLastDotOrMidPos(data: seq<Byte>, start: int, len: int): (cut: int)
    requires SliceOk(data, start, len)
    ensures start <= cut <= start + len
    ensures len >= 1 ==> cut < start + len
    ensures start < cut <==> len >= 2 && LastDot(data[start..start + len]) != 0
    ensures CutsName(data, start, len, cut)
  {
    var name := data[start..start + len];
    var i := LastDot(name);
    assert forall j :: 0 <= j < len ==> name[j] == data[start + j];
    assert forall j :: start <= j < start + len ==> data[j] == name[j - start];
    if i == -1 then len / 2 + start else start + i
  }

  // ----- splitting -----

  /** `n * base`, by repeated addition. */
  function Times(n: nat, base: nat): nat {
    if n == 0 then 0 else Times(n - 1, base) + base
  }

  lemma {:induction false} TimesIsProduct(n: nat, base: nat)
    ensures Times(n, base) == n * base
  {
    if n > 0 {
      TimesIsProduct(n - 1, base);
      assert n * base == (n - 1) * base + base;
    }
  }

  lemma TimesFits(len: nat, n: nat)
    requires n >= 1
    ensures Times(n, len / n) <= len
  {
    TimesIsProduct(n, len / n);
  }

  /** Pieces of `base` octets, `n` in all; the last takes the remainder. */
  function Chop(data: seq<Byte>, base: nat, n: nat): (r: seq<seq<Byte>>)
    requires n >= 1 && |data| >= Times(n, base)
    ensures |r| == n
    decreases n
  {
    if n == 1 then [data] else [data[..base]] + Chop(data[base..], base, n - 1)
  }

  lemma {:induction false} ChopWhole(data: seq<Byte>, base: nat, n: nat)
    requires n >= 1 && |data| >= Times(n, base)
    ensures Flatten(Chop(data, base, n)) == data
    decreases n
  {
    var r := Chop(data, base, n);
    if n == 1 {
      FlattenOne(data);
    } else {
      var head, rest := data[..base], Chop(data[base..], base, n - 1);
      ChopWhole(data[base..], base, n - 1);
      assert r[0] == head && r[1..] == rest;
      assert data == head + data[base..];
    }
  }

  /** Where piece `i` lies in the data. */
  lemma {:induction false} ChopAt(data: seq<Byte>, base: nat, n: nat, i: nat)
    requires i < n && |data| >= Times(n, base)
    ensures Times(i, base) + base <= |data|
    ensures Chop(data, base, n)[i] == data[Times(i, base)..if i == n - 1 then |data| else Times(i, base) + base]
    decreases n
  {
    if i > 0 {
      ChopAt(data[base..], base, n - 1, i - 1);
      Shifted(data, base, Times(i - 1, base), if i == n - 1 then |data| - base else Times(i - 1, base) + base);
    }
  }

  lemma Shifted(data: seq<Byte>, base: nat, s: nat, e: nat)
    requires base <= |data| && s <= e <= |data| - base
    ensures data[base..][s..e] == data[base + s..base + e]
  {
  }

  lemma ChopNonEmpty(data: seq<Byte>, base: nat, n: nat)
    requires n >= 1 && base >= 1 && |data| >= Times(n, base)
    ensures forall i :: 0 <= i < n ==> |Chop(data, base, n)[i]| >= 1
  {
    forall i | 0 <= i < n ensures |Chop(data, base, n)[i]| >= 1 { ChopAt(data, base, n, i); }
  }

  /** The pieces of `splitAndAppend`. */
  function Split(data: seq<Byte>, n: int): (r: seq<seq<Byte>>)
    ensures n >= 1 ==> 1 <= |r| <= n && Flatten(r) == data
    ensures 1 <= n <= |data| ==> |r| == n
    ensures n >= 1 && |data| >= 1 ==> forall i :: 0 <= i < |r| ==> |r[i]| >= 1
    ensures n == 1 ==> r == [data]
  {
    if n <= 0 then []
    else if n == 1 || |data| < n then
      FlattenOne(data);
      [data]
    else
      TimesFits(|data|, n);
      QuotientPositive(|data|, n);
      ChopWhole(data, |data| / n, n);
      ChopNonEmpty(data, |data| / n, n);
      Chop(data, |data| / n, n)
  }

  /** Equal pieces, the last of which takes the remainder. */
  lemma SplitAt(data: seq<Byte>, n: nat, i: nat)
    requires 1 <= n <= |data| && i < n
    ensures var base := |data| / n;
            && |Split(data, n)| == n && 0 <= i * base <= |data| && (i < n - 1 ==> (i + 1) * base <= |data|)
            && Split(data, n)[i] == data[i * base..if i == n - 1 then |data| else (i + 1) * base]
  {
    var base := |data| / n;
    TimesFits(|data|, n);
    if n == 1 {
      assert i == 0 && Split(data, 1)[0] == data[0..|data|];
    } else {
      ChopAt(data, base, n, i);
      TimesIsProduct(i, base);
      assert (i + 1) * base == i * base + base;
    }
  }

  lemma QuotientPositive(len: nat, n: nat)
    requires 1 <= n <= len
    ensures len / n >= 1
  {
  }

  function Record(header: seq<Byte>, payload: seq<Byte>): seq<Byte> {
    header + PutU16(|payload|) + payload
  }

  function Framed(header: seq<Byte>, parts: seq<seq<Byte>>): seq<seq<Byte>> {
    if parts == [] then [] else [Record(header, parts[0])] + Framed(header, parts[1..])
  }

  lemma {:induction false} FramedAppend(header: seq<Byte>, a: seq<seq<Byte>>, b: seq<seq<Byte>>)
    ensures Framed(header, a + b) == Framed(header, a) + Framed(header, b)
  {
    if a == [] {
      assert a + b == b;
    } else {
      FramedAppend(header, a[1..], b);
      assert (a + b)[0] == a[0] && (a + b)[1..] == a[1..] + b;
      var p, x, y := [Record(header, a[0])], Framed(header, a[1..]), Framed(header, b);
      assert p + (x + y) == (p + x) + y;
    }
  }

  /** The pieces with the header put back, when there is one. */
  function Wrapped(header: Option<seq<Byte>>, parts: seq<seq<Byte>>): seq<seq<Byte>> {
    match header
    case None => parts
    case Some(h) => Framed(h, parts)
  }

  lemma WrappedAppend(header: Option<seq<Byte>>, a: seq<seq<Byte>>, b: seq<seq<Byte>>)
    ensures Wrapped(header, a + b) == Wrapped(header, a) + Wrapped(header, b)
  {
    if header.Some? { FramedAppend(header.value, a, b); }
  }

  lemma WrappedSnoc(header: Option<seq<Byte>>, parts: seq<seq<Byte>>, p: seq<Byte>)
    ensures Wrapped(header, parts + [p]) == Wrapped(header, parts) + (if header.Some? then [Record(header.value, p)] else [p])
  {
    if header.Some? {
      FramedAppend(header.value, parts, [p]);
      assert Framed(header.value, [p]) == [Record(header.value, p)] + Framed(header.value, []);
    }
  }

  method MakeRecord(header: seq<Byte>, payload: seq<Byte>) returns (r: seq<Byte>)
    requires |header| == 3
    ensures r == Record(header, payload)
  {
    var rec := new Byte[5 + |payload|];
    forall i | 0 <= i < 3 { rec[i] := header[i]; }
    rec[3], rec[4] := |payload| / 256 % 256, |payload| % 256;
    forall i | 0 <= i < |payload| { rec[5 + i] := payload[i]; }
    r := rec[..];
    assert r == Record(header, payload);
  }

  method AppendPart(part: seq<Byte>, header: Option<seq<Byte>>, result: seq<seq<Byte>>,
                    ghost before: seq<seq<Byte>>, ghost parts: seq<seq<Byte>>)
    returns (out: seq<seq<Byte>>)
    requires header.Some? ==> |header.value| == 3
    requires result == before + Wrapped(header, parts)
    ensures out == before + Wrapped(header, parts + [part])
  {
    WrappedSnoc(header, parts, part);
    if header.Some? {
      var rec := MakeRecord(header.value, part);
      out := result + [rec];
    } else {
      out := result + [part];
    }
  }

  /** The slice computed from its bounds is the piece of the split. */
  method Segment(merged: seq<Byte>, segments: nat, i: nat) returns (part: seq<Byte>)
    requires 1 < segments <= |merged| && i < segments
    ensures part == Split(merged, segments)[i]
  {
    var base := |merged| / segments;
    TimesFits(|merged|, segments);
    ChopAt(merged, base, segments, i);
    TimesIsProduct(i, base);
    var start := i * base;
    var end := start + base;
    if i == segments - 1 { end := |merged|; }
    part := merged[start..end];
  }

  method SplitAndAppend(data: seq<Byte>, header: Option<seq<Byte>>, n: int, result: seq<seq<Byte>>)
    returns (out: seq<seq<Byte>>)
    requires header.Some? ==> |header.value| == 3
    ensures out == result + Wrapped(header, Split(data, n))
  {
    out := result;
    if n <= 0 { return; }
    assert Wrapped(header, []) == [] && result == result + [];
    if n == 1 || |data| < n {
      out := AppendPart(data, header, out, result, []);
      assert [] + [data] == Split(data, n);
      return;
    }
    ghost var goal := Split(data, n);
    assert goal[..0] == [];
    for i := 0 to n
      invariant |goal| == n
      invariant out == result + Wrapped(header, goal[..i])
    {
      var part := Segment(data, n, i);
      assert goal[..i + 1] == goal[..i] + [part];
      out := AppendPart(part, header, out, result, goal[..i]);
    }
    assert goal[..n] == goal;
  }

  // ----- the steps performed -----

  /** `panics` says that the program stops with a run-time panic after performing `events`. */
  datatype Script = Script(events: seq<Event>, panics: bool)

  datatype Outcome = Sent | Failed | Panicked

  /** What a connection with `left` good steps makes of a script. */
  function OutcomeOf(s: Script, left: nat): Outcome {
    if |s.events| > left then Failed else if s.panics then Panicked else Sent
  }

  function PacketEvents(ps: seq<seq<Byte>>, urgentFirst: bool): seq<Event> {
    if ps == [] then []
    else [PacketEvent(ps[0], urgentFirst), AwaitAck] + PacketEvents(ps[1..], false)
  }

  function PacketEvent(p: seq<Byte>, urgent: bool): Event {
    if urgent then SendUrgent(p, 0x0, true) else Send(p)
  }

  function FirstRecordEvent(chunk: seq<Byte>, oob: bool, oobex: bool): Event {
    if !oob && oobex && |chunk| > 0 then SendUrgent(chunk[..|chunk| - 1], chunk[|chunk| - 1], false)
    else PacketEvent(chunk, oob)
  }

  /** One send per record. */
  function RecordEvents(chunks: seq<seq<Byte>>, oob: bool, oobex: bool): seq<Event> {
    if chunks == [] then []
    else [FirstRecordEvent(chunks[0], oob, oobex), AwaitAck] + PacketEvents(chunks[1..], oobex)
  }

  /** The two urgent sends that carry the first 35 octets. */
  function UrgentHead(d: seq<Byte>): seq<Event>
    requires |d| >= 35
  {
    [SendUrgent(d[..15], d[15], false), SendUrgent(d[16..35], 0x0, true), AwaitAck]
  }

  predicate Leads(d: seq<Byte>, oobex: bool) { oobex && |d| >= 35 }

  function LeadEvents(d: seq<Byte>, oobex: bool): seq<Event> {
    if Leads(d, oobex) then UrgentHead(d) else []
  }

  function AfterLead(d: seq<Byte>, oobex: bool): seq<Byte> {
    if Leads(d, oobex) then d[35..] else d
  }

  /** The data cut around the middle of the server name, each half into its share of the segments. */
  function CutPackets(body: seq<Byte>, start: int, length: int, segments: nat): seq<seq<Byte>>
    requires SliceOk(body, start, length)
  {
    var cut := FindLastDotOrMidPos(body, start, length);
    Split(body[..cut], segments / 2) + Split(body[cut..], segments - segments / 2)
  }

  /** What follows the urgent head of a single record. */
  function OneRecordRest(body: seq<Byte>, start: int, length: int, segments: int, oob: bool): Script {
    if segments == 1 then Script([Send(body)], false)
    else if segments < 0 || !SliceOk(body, start, length) then Script([], true)
    else Script(PacketEvents(CutPackets(body, start, length, segments), oob), false)
  }

  function OneRecordScript(hello: seq<Byte>, offset: int, length: int, segments: int, oob: bool, oobex: bool): Script {
    var start := if Leads(hello, oobex) then offset - 35 else offset;
    var rest := OneRecordRest(AfterLead(hello, oobex), start, length, segments, oob);
    Script(LeadEvents(hello, oobex) + rest.events, rest.panics)
  }

  function Fragments(hello: seq<Byte>, cut: nat, records: nat): seq<seq<Byte>>
    requires RECORD_HEADER <= cut <= |hello|
  {
    Split(hello[RECORD_HEADER..cut], records / 2) + Split(hello[cut..], records - records / 2)
  }

  function MergedEvents(merged: seq<Byte>, segments: int, oob: bool, oobex: bool): seq<Event> {
    var head, body := LeadEvents(merged, oobex), AfterLead(merged, oobex);
    if segments == 1 || |body| <= segments then head + [Send(body)]
    else head + PacketEvents(Split(body, segments), oob)
  }

  function ManyRecordsScript(hello: seq<Byte>, offset: int, length: int, records: nat, segments: int,
                             oob: bool, oobex: bool): Script
    requires |hello| >= 5
  {
    if !SliceOk(hello, offset, length) || FindLastDotOrMidPos(hello, offset, length) < RECORD_HEADER then Script([], true)
    else
      var chunks := Framed(hello[..3], Fragments(hello, FindLastDotOrMidPos(hello, offset, length), records));
      if segments == -1 then Script(RecordEvents(chunks, oob, oobex), false)
      else Script(MergedEvents(Flatten(chunks), segments, oob, oobex), false)
  }

  /** The record with its minor version set to 4 if asked, and nothing else changed. */
  function Patched(hello: seq<Byte>, modMinorVer: bool): (r: seq<Byte>)
    requires |hello| >= 5
    ensures |r| == |hello| && forall i :: 0 <= i < |r| ==> r[i] == if i == 2 && modMinorVer then 4 else hello[i]
  {
    if modMinorVer then hello[2 := 0x4] else hello
  }

  function SendScript(hello: seq<Byte>, offset: int, length: int, records: nat, segments: int,
                      oob: bool, oobex: bool, modMinorVer: bool): Script
    requires |hello| >= 5
  {
    var s := if segments == 0 then 1 else segments;
    if records <= 1 then OneRecordScript(Patched(hello, modMinorVer), offset, length, s, oob, oobex)
    else ManyRecordsScript(Patched(hello, modMinorVer), offset, length, records, s, oob, oobex)
  }

  // ----- performing them -----

  method SendThenAwait(conn: Conn, e: Event) returns (ok: bool)
    modifies conn
    ensures conn.State() == Perform(old(conn.State()), [e, AwaitAck])
    ensures ok <==> old(conn.left) >= 2
  {
    ghost var c0 := conn.State();
    PerformInOrder(c0, [e], [AwaitAck]);
    assert [e] + [AwaitAck] == [e, AwaitAck];
    ok := conn.Do(e);
    if ok {
      ok := conn.Do(AwaitAck);
    } else {
      PerformFailed(c0, [e], [AwaitAck]);
    }
  }

  /** Two stages of one script: the second is reached only if the first succeeds. */
  lemma TwoStages(c0: ConnState, first: seq<Event>, second: seq<Event>)
    ensures Perform(Perform(c0, first), second) == Perform(c0, first + second)
    ensures |first| > c0.left ==> Perform(c0, first) == Perform(c0, first + second)
  {
    PerformInOrder(c0, first, second);
    if |first| > c0.left { PerformFailed(c0, first, second); }
  }

  method SendPackets(conn: Conn, ps: seq<seq<Byte>>, oob: bool) returns (ok: bool)
    modifies conn
    ensures conn.State() == Perform(old(conn.State()), PacketEvents(ps, oob))
    ensures ok <==> |PacketEvents(ps, oob)| <= old(conn.left)
  {
    ghost var final := Perform(conn.State(), PacketEvents(ps, oob));
    assert ps[0..] == ps;
    for i := 0 to |ps|
      invariant Perform(conn.State(), PacketEvents(ps[i..], i == 0 && oob)) == final
      invariant conn.left - |PacketEvents(ps[i..], i == 0 && oob)| == old(conn.left) - |PacketEvents(ps, oob)|
    {
      var e := PacketEvent(ps[i], i == 0 && oob);
      assert ps[i..][0] == ps[i] && ps[i..][1..] == ps[i + 1..];
      TwoStages(conn.State(), [e, AwaitAck], PacketEvents(ps[i + 1..], false));
      ok := SendThenAwait(conn, e);
      if !ok { return; }
    }
    PerformNothing(conn.State());
    ok := true;
  }

  function ChunkEvent(chunks: seq<seq<Byte>>, i: nat, oob: bool, oobex: bool): Event
    requires i < |chunks|
  {
    if i == 0 then FirstRecordEvent(chunks[0], oob, oobex) else PacketEvent(chunks[i], i == 1 && oobex)
  }

  ghost function ChunkEventsFrom(chunks: seq<seq<Byte>>, i: nat, oob: bool, oobex: bool): seq<Event>
    requires i <= |chunks|
  {
    if i == 0 then RecordEvents(chunks, oob, oobex) else PacketEvents(chunks[i..], i == 1 && oobex)
  }

  lemma ChunkStep(chunks: seq<seq<Byte>>, i: nat, oob: bool, oobex: bool)
    requires i < |chunks|
    ensures ChunkEventsFrom(chunks, i, oob, oobex)
            == [ChunkEvent(chunks, i, oob, oobex), AwaitAck] + ChunkEventsFrom(chunks, i + 1, oob, oobex)
  {
    assert chunks[i..][1..] == chunks[i + 1..];
  }

  method SendChunks(conn: Conn, chunks: seq<seq<Byte>>, oob: bool, oobex: bool) returns (ok: bool)
    modifies conn
    ensures conn.State() == Perform(old(conn.State()), RecordEvents(chunks, oob, oobex))
    ensures ok <==> |RecordEvents(chunks, oob, oobex)| <= old(conn.left)
  {
    ghost var final := Perform(conn.State(), RecordEvents(chunks, oob, oobex));
    for i := 0 to |chunks|
      invariant Perform(conn.State(), ChunkEventsFrom(chunks, i, oob, oobex)) == final
      invariant conn.left - |ChunkEventsFrom(chunks, i, oob, oobex)| == old(conn.left) - |RecordEvents(chunks, oob, oobex)|
    {
      var e := ChunkEvent(chunks, i, oob, oobex);
      ChunkStep(chunks, i, oob, oobex);
      TwoStages(conn.State(), [e, AwaitAck], ChunkEventsFrom(chunks, i + 1, oob, oobex));
      ok := SendThenAwait(conn, e);
      if !ok { return; }
    }
    assert ChunkEventsFrom(chunks, |chunks|, oob, oobex) == [];
    PerformNothing(conn.State());
    ok := true;
  }

  /** Equal slices of `merged`, the last one taking the remainder. */
  method SendSegments(conn: Conn, merged: seq<Byte>, segments: nat, oob: bool) returns (ok: bool)
    requires 1 < segments < |merged|
    modifies conn
    ensures conn.State() == Perform(old(conn.State()), PacketEvents(Split(merged, segments), oob))
    ensures ok <==> |PacketEvents(Split(merged, segments), oob)| <= old(conn.left)
  {
    ghost var ps := Split(merged, segments);
    ghost var final := Perform(conn.State(), PacketEvents(ps, oob));
    assert ps[0..] == ps;
    for i := 0 to segments
      invariant Perform(conn.State(), PacketEvents(ps[i..], i == 0 && oob)) == final
      invariant conn.left - |PacketEvents(ps[i..], i == 0 && oob)| == old(conn.left) - |PacketEvents(ps, oob)|
    {
      var part := Segment(merged, segments, i);
      var e := PacketEvent(part, i == 0 && oob);
      assert ps[i..][0] == part && ps[i..][1..] == ps[i + 1..];
      TwoStages(conn.State(), [e, AwaitAck], PacketEvents(ps[i + 1..], false));
      ok := SendThenAwait(conn, e);
      if !ok { return; }
    }
    PerformNothing(conn.State());
    ok := true;
  }

  /** The urgent head, when there is one; the caller goes on with the rest of the data. */
  method SendLead(conn: Conn, d: seq<Byte>, oobex: bool) returns (ok: bool)
    modifies conn
    ensures conn.State() == Perform(old(conn.State()), LeadEvents(d, oobex))
    ensures ok <==> |LeadEvents(d, oobex)| <= old(conn.left)
  {
    ghost var c0 := conn.State();
    if !Leads(d, oobex) {
      PerformNothing(c0);
      return true;
    }
    ghost var first, second := [SendUrgent(d[..15], d[15], false)], [SendUrgent(d[16..35], 0x0, true), AwaitAck];
    assert first + second == UrgentHead(d);
    TwoStages(c0, first, second);
    ok := conn.Do(SendUrgent(d[..15], d[15], false));
    if ok {
      ok := SendThenAwait(conn, SendUrgent(d[16..35], 0x0, true));
    }
  }

  method SendMerged(conn: Conn, merged: seq<Byte>, segments: nat, oob: bool, oobex: bool) returns (ok: bool)
    requires segments >= 1
    modifies conn
    ensures conn.State() == Perform(old(conn.State()), MergedEvents(merged, segments, oob, oobex))
    ensures ok <==> |MergedEvents(merged, segments, oob, oobex)| <= old(conn.left)
  {
    var rest := AfterLead(merged, oobex);
    TwoStages(conn.State(), LeadEvents(merged, oobex),
              if segments == 1 || |rest| <= segments then [Send(rest)] else PacketEvents(Split(rest, segments), oob));
    ok := SendLead(conn, merged, oobex);
    if !ok { return; }
    if segments == 1 || |rest| <= segments {
      ok := conn.Do(Send(rest));
    } else {
      ok := SendSegments(conn, rest, segments, oob);
    }
  }

  /** Both halves of the data, cut into `n` pieces altogether. */
  method SplitAround(left: seq<Byte>, right: seq<Byte>, header: Option<seq<Byte>>, n: nat) returns (out: seq<seq<Byte>>)
    requires header.Some? ==> |header.value| == 3
    ensures out == Wrapped(header, Split(left, n / 2) + Split(right, n - n / 2))
  {
    ghost var a, b := Split(left, n / 2), Split(right, n - n / 2);
    var half := n / 2;
    out := SplitAndAppend(left, header, half, []);
    assert out == Wrapped(header, a);
    out := SplitAndAppend(right, header, n - half, out);
    assert out == Wrapped(header, a) + Wrapped(header, b);
    WrappedAppend(header, a, b);
  }

  method Concatenate(chunks: seq<seq<Byte>>) returns (merged: seq<Byte>)
    ensures merged == Flatten(chunks)
  {
    merged := [];
    for i := 0 to |chunks|
      invariant merged == Flatten(chunks[..i])
    {
      FlattenSnoc(chunks[..i], chunks[i]);
      assert chunks[..i] + [chunks[i]] == chunks[..i + 1];
      merged := merged + chunks[i];
    }
    assert chunks[..|chunks|] == chunks;
  }

  method SendOneRecordRest(conn: Conn, body: seq<Byte>, start: int, length: int, segments: int, oob: bool)
    returns (r: Outcome)
    requires segments >= 1 || segments == -1
    modifies conn
    ensures var s := OneRecordRest(body, start, length, segments, oob);
            conn.State() == Perform(old(conn.State()), s.events) && r == OutcomeOf(s, old(conn.left))
  {
    var ok;
    if segments == 1 {
      ok := conn.Do(Send(body));
    } else if segments < 0 || !SliceOk(body, start, length) {
      PerformNothing(conn.State());
      return Panicked;
    } else {
      var cut := FindLastDotOrMidPos(body, start, length);
      var packets := SplitAround(body[..cut], body[cut..], None, segments);
      ok := SendPackets(conn, packets, oob);
    }
    return if ok then Sent else Failed;
  }

  method SendOneRecord(conn: Conn, hello: seq<Byte>, offset: int, length: int, segments: int, oob: bool, oobex: bool)
    returns (r: Outcome)
    requires segments >= 1 || segments == -1
    modifies conn
    ensures var s := OneRecordScript(hello, offset, length, segments, oob, oobex);
            conn.State() == Perform(old(conn.State()), s.events) && r == OutcomeOf(s, old(conn.left))
  {
    var body := AfterLead(hello, oobex);
    var start := if Leads(hello, oobex) then offset - 35 else offset;
    TwoStages(conn.State(), LeadEvents(hello, oobex), OneRecordRest(body, start, length, segments, oob).events);
    var ok := SendLead(conn, hello, oobex);
    if !ok { return Failed; }
    r := SendOneRecordRest(conn, body, start, length, segments, oob);
  }

  method SendManyRecords(conn: Conn, hello: seq<Byte>, offset: int, length: int, records: nat, segments: int,
                         oob: bool, oobex: bool)
    returns (r: Outcome)
    requires |hello| >= 5 && (segments >= 1 || segments == -1)
    modifies conn
    ensures var s := ManyRecordsScript(hello, offset, length, records, segments, oob, oobex);
            conn.State() == Perform(old(conn.State()), s.events) && r == OutcomeOf(s, old(conn.left))
  {
    if !SliceOk(hello, offset, length) || FindLastDotOrMidPos(hello, offset, length) < RECORD_HEADER {
      PerformNothing(conn.State());
      return Panicked;
    }
    var cut := FindLastDotOrMidPos(hello, offset, length);
    var header := hello[..3];
    var chunks := SplitAround(hello[RECORD_HEADER..cut], hello[cut..], Some(header), records);
    assert chunks == Framed(header, Fragments(hello, cut, records));
    var ok;
    if segments == -1 {
      ok := SendChunks(conn, chunks, oob, oobex);
    } else {
      var merged := Concatenate(chunks);
      ok := SendMerged(conn, merged, segments, oob, oobex);
    }
    return if ok then Sent else Failed;
  }

  /** `sendRecords`: patches the version octet in place, then performs exactly the scripted steps. */
  method SendRecords(conn: Conn, hello: array<Byte>, offset: int, length: int, records: nat, segments: int,
                     oob: bool, oobex: bool, modMinorVer: bool)
    returns (r: Outcome)
    requires hello.Length >= 5 && segments >= -1
    modifies conn, hello
    ensures hello[..] == Patched(old(hello[..]), modMinorVer)
    ensures var s := SendScript(old(hello[..]), offset, length, records, segments, oob, oobex, modMinorVer);
            conn.State() == Perform(old(conn.State()), s.events) && r == OutcomeOf(s, old(conn.left))
  {
    var n := if records == 0 then 1 else records;
    var s := if segments == 0 then 1 else segments;
    if modMinorVer { hello[2] := 0x4; }
    var clientHello := hello[..];
    assert clientHello == Patched(old(hello[..]), modMinorVer);
    if n == 1 {
      r := SendOneRecord(conn, clientHello, offset, length, s, oob, oobex);
    } else {
      r := SendManyRecords(conn, clientHello, offset, length, n, s, oob, oobex);
    }
  }
}
