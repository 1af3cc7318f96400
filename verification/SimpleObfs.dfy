/**
 simple-obfs in TLS mode: data disguised as TLS records, the first of them as a ClientHello whose session ticket
 carries the payload.
 */
module SimpleObfs {
  import opened Bytes
  import opened Sinks
  import opened ClientHello
  import Fragment

  const CHUNK_SIZE := 16384

  // ----- the disguised ClientHello -----

  /** The clock and the random octets that go into a ClientHello. */
  datatype Entropy = Entropy(stamp: seq<Byte>, random: seq<Byte>, sessionId: seq<Byte>) {
    predicate Ok() { |stamp| == 4 && |random| == 28 && |sessionId| == 32 }
  }

  const CIPHER_SUITES: seq<Byte> := [
    0xc0, 0x2c, 0xc0, 0x30, 0x00, 0x9f, 0xcc, 0xa9, 0xcc, 0xa8, 0xcc, 0xaa, 0xc0, 0x2b, 0xc0, 0x2f,
    0x00, 0x9e, 0xc0, 0x24, 0xc0, 0x28, 0x00, 0x6b, 0xc0, 0x23, 0xc0, 0x27, 0x00, 0x67, 0xc0, 0x0a,
    0xc0, 0x14, 0x00, 0x39, 0xc0, 0x09, 0xc0, 0x13, 0x00, 0x33, 0x00, 0x9d, 0x00, 0x9c, 0x00, 0x3d,
    0x00, 0x3c, 0x00, 0x35, 0x00, 0x2f, 0x00, 0xff]

  const EC_POINT: seq<Byte> := [0x03, 0x01, 0x00, 0x02]
  const GROUPS: seq<Byte> := [0x00, 0x08, 0x00, 0x1d, 0x00, 0x17, 0x00, 0x19, 0x00, 0x18]
  const SIGNATURE: seq<Byte> := [
    0x00, 0x1e, 0x06, 0x01, 0x06, 0x02, 0x06, 0x03, 0x05, 0x01, 0x05, 0x02, 0x05, 0x03, 0x04, 0x01,
    0x04, 0x02, 0x04, 0x03, 0x03, 0x01, 0x03, 0x02, 0x03, 0x03, 0x02, 0x01, 0x02, 0x02, 0x02, 0x03]

  /** The bytes of `makeClientHelloMsg`, field by field. */
  function HelloBytes(data: seq<Byte>, server: seq<Byte>, e: Entropy): seq<Byte> {
    var n := |data| + |server|;
    Headers(0x01, 208 + n) + ([0x03, 0x03] + ((e.stamp + e.random)
      + ([32] + (e.sessionId + ([0x00, 0x38] + (CIPHER_SUITES + ([0x01] + ([0x00] + (PutU16(79 + n)
        + (TicketBytes(data) + (ServerNameBytes(server) + FixedExtensions())))))))))))
  }

  function TicketBytes(data: seq<Byte>): seq<Byte> {
    [0x00, 0x23] + PutU16(|data|) + data
  }

  function ServerNameBytes(server: seq<Byte>): seq<Byte> {
    [0x00, 0x00] + PutU16(|server| + 5) + (PutU16(|server| + 3) + [0] + PutU16(|server|) + server)
  }

  function FixedExtensions(): seq<Byte> {
    ([0x00, 0x0b, 0x00, 0x04] + EC_POINT) + (([0x00, 0x0a, 0x00, 0x0a] + GROUPS)
      + (([0x00, 0x0d, 0x00, 0x20] + SIGNATURE) + ([0x00, 0x16, 0x00, 0x00] + [0x00, 0x17, 0x00, 0x00])))
  }

  /** The extensions behind the server name. */
  function Trailers(): seq<Extension> {
    [Extension(0x000b, EC_POINT), Extension(0x000a, GROUPS), Extension(0x000d, SIGNATURE), Extension(0x0016, []), Extension(0x0017, [])]
  }

  function Disguise(data: seq<Byte>, server: seq<Byte>): seq<Extension> {
    [Extension(0x0023, data), Extension(EXT_SNI, SniBody(server, []))] + Trailers()
  }

  function DisguiseMessage(data: seq<Byte>, server: seq<Byte>, e: Entropy): Message {
    Message(0x01, [0x03, 0x03], e.stamp + e.random,
            Body(e.sessionId, CIPHER_SUITES, [0x00], Listed(Disguise(data, server), [], [])))
  }

  lemma TrailersPrint()
    ensures PrintExtensions(Trailers()) == FixedExtensions() && |FixedExtensions()| == 66
  {
    var t := Trailers();
    assert t[1..] == [t[1], t[2], t[3], t[4]] && t[2..] == [t[2], t[3], t[4]] && t[3..] == [t[3], t[4]] && t[4..] == [t[4]];
    assert t[1..][1..] == t[2..] && t[2..][1..] == t[3..] && t[3..][1..] == t[4..] && t[4..][1..] == [];
    assert PrintExtension(t[0]) == [0x00, 0x0b, 0x00, 0x04] + EC_POINT;
    assert PrintExtension(t[1]) == [0x00, 0x0a, 0x00, 0x0a] + GROUPS;
    assert PrintExtension(t[2]) == [0x00, 0x0d, 0x00, 0x20] + SIGNATURE;
    assert PrintExtension(t[3]) == [0x00, 0x16, 0x00, 0x00];
    assert PrintExtension(t[4]) == [0x00, 0x17, 0x00, 0x00];
    assert PrintExtensions(t[4..]) == PrintExtension(t[4]) + PrintExtensions([]);
    assert PrintExtensions(t[3..]) == PrintExtension(t[3]) + PrintExtensions(t[4..]);
    assert PrintExtensions(t[2..]) == PrintExtension(t[2]) + PrintExtensions(t[3..]);
    assert PrintExtensions(t[1..]) == PrintExtension(t[1]) + PrintExtensions(t[2..]);
  }

  lemma DisguisePrints(data: seq<Byte>, server: seq<Byte>)
    ensures PrintExtensions(Disguise(data, server)) == TicketBytes(data) + (ServerNameBytes(server) + FixedExtensions())
    ensures |PrintExtensions(Disguise(data, server))| == 79 + |data| + |server|
    ensures PrintExtensions(Disguise(data, server)[..1]) == TicketBytes(data)
  {
    var d := Disguise(data, server);
    TrailersPrint();
    assert d[1..][1..] == Trailers();
    assert PrintExtension(d[0]) == TicketBytes(data);
    assert SniBody(server, []) == PutU16(|server| + 3) + [0] + PutU16(|server|) + server;
    assert PrintExtension(d[1]) == ServerNameBytes(server);
    assert PrintExtensions(d[1..]) == PrintExtension(d[1]) + PrintExtensions(d[1..][1..]);
    assert d[..1] == [d[0]];
    assert PrintExtensions([d[0]]) == PrintExtension(d[0]) + PrintExtensions([]);
  }

  /** The disguise contains one server name, second in the list, and neither key_share nor ECH. */
  lemma DisguiseTypes(data: seq<Byte>, server: seq<Byte>)
    requires |data| + |server| + 212 <= 65535
    ensures var d := Disguise(data, server);
            && ExtensionsOk(d) && FirstSni(d) == 1 && SniOk(d)
            && !HasType(d, EXT_KEY_SHARE) && !HasType(d, EXT_ECH)
  {
    var d := Disguise(data, server);
    assert d[0].typ == 0x0023 && d[1].typ == 0 && d[1..][0].typ == 0;
    SniBodyRead(server, []);
  }

  lemma DisguiseMessageOk(data: seq<Byte>, server: seq<Byte>, e: Entropy)
    requires |data| + |server| + 212 <= 65535 && e.Ok()
    ensures DisguiseMessage(data, server, e).Ok()
    ensures DisguiseMessage(data, server, e).Print() == HelloBytes(data, server, e)
    ensures |HelloBytes(data, server, e)| == 217 + |data| + |server|
  {
    var m, n := DisguiseMessage(data, server, e), |data| + |server|;
    DisguiseTypes(data, server);
    DisguisePrints(data, server);
    var exts := PrintExtensions(Disguise(data, server));
    assert m.body.block.Ok();
    assert m.body.block.Print() == PutU16(79 + n) + exts by { assert exts + [] + [] == exts; }
    assert PutU16(|CIPHER_SUITES|) == [0x00, 0x38];
    assert m.body.Vectors() == [32] + (e.sessionId + ([0x00, 0x38] + (CIPHER_SUITES + ([0x01] + ([0x00] + (PutU16(79 + n) + exts))))));
    assert |m.body.Vectors()| == 174 + n;
  }

  lemma TicketCarries(data: seq<Byte>, server: seq<Byte>, e: Entropy)
    requires |data| + |server| + 212 <= 65535 && e.Ok()
    ensures var msg := HelloBytes(data, server, e); |msg| >= 142 + |data| && msg[142..142 + |data|] == data
  {
    DisguiseMessageOk(data, server, e);
    DisguisePrints(data, server);
    TicketInside(DisguiseMessage(data, server, e), data, ServerNameBytes(server) + FixedExtensions());
  }

  lemma TicketInside(m: Message, data: seq<Byte>, more: seq<Byte>)
    requires m.Ok() && m.body.block.Listed? && m.body.BlockOffset() == 136
    requires PrintExtensions(m.body.block.es) == TicketBytes(data) + more
    ensures |m.Print()| >= 142 + |data| && m.Print()[142..142 + |data|] == data
  {
    BlockAt(m);
    ListedAt(m.Print(), 136, m.body.block);
    TicketAt(m.Print(), 138, data, more, m.body.block.slack + m.body.block.rest);
  }

  lemma TicketAt(d: seq<Byte>, o: nat, data: seq<Byte>, more: seq<Byte>, rest: seq<Byte>)
    requires o <= |d| && d[o..] == (TicketBytes(data) + more) + rest
    ensures |d| >= o + 4 + |data| && d[o + 4..o + 4 + |data|] == data
  {
    assert d[o..][4..4 + |data|] == data;
    assert d[o + 4..o + 4 + |data|] == d[o..][4..4 + |data|];
  }

  /**
   Printer against parser: the repository's own parser finds exactly `server` in the disguised ClientHello, and the
   data sits in the session ticket.
   */
  lemma DisguiseParses(data: seq<Byte>, server: seq<Byte>, e: Entropy)
    requires |data| + |server| + 212 <= 65535 && e.Ok()
    ensures var msg := HelloBytes(data, server, e);
            && |msg| == 217 + |data| + |server|
            && ParseHello(msg) == Hello([0x03, 0x03], Found(151 + |data|, |server|, false, false), None)
            && msg[151 + |data|..151 + |data| + |server|] == server
            && msg[142..142 + |data|] == data
  {
    var m := DisguiseMessage(data, server, e);
    assert m.Ok() && m.Print() == HelloBytes(data, server, e) && |m.Print()| == 217 + |data| + |server| by {
      DisguiseMessageOk(data, server, e);
    }
    assert ParseHello(m.Print()) == Hello([0x03, 0x03], Found(151 + |data|, |server|, false, false), None) by {
      DisguiseFound(data, server, e);
    }
    assert m.Print()[151 + |data|..151 + |data| + |server|] == server by { DisguiseNamed(data, server, e); }
    assert m.Print()[142..142 + |data|] == data by { TicketCarries(data, server, e); }
  }

  lemma DisguiseNamed(data: seq<Byte>, server: seq<Byte>, e: Entropy)
    requires |data| + |server| + 212 <= 65535 && e.Ok() && DisguiseMessage(data, server, e).Ok()
    ensures var msg, start := DisguiseMessage(data, server, e).Print(), 151 + |data|;
            start + |server| <= |msg| && msg[start..start + |server|] == server
  {
    DisguiseFound(data, server, e);
    DisguiseTypes(data, server);
    NamedAt(DisguiseMessage(data, server, e), server, 151 + |data|);
  }

  lemma NamedAt(m: Message, server: seq<Byte>, start: nat)
    requires m.Ok() && m.body.block.Listed? && FirstSni(m.body.block.es) == 1 < |m.body.block.es|
    requires m.body.block.es[1].body == SniBody(server, []) && ParseHello(m.Print()).found.sniStart == start
    ensures start + |server| <= |m.Print()| && m.Print()[start..start + |server|] == server
  {
    ReportedNameIsHost(m, 1, server, []);
  }

  lemma DisguiseFound(data: seq<Byte>, server: seq<Byte>, e: Entropy)
    requires |data| + |server| + 212 <= 65535 && e.Ok() && DisguiseMessage(data, server, e).Ok()
    ensures ParseHello(DisguiseMessage(data, server, e).Print())
            == Hello([0x03, 0x03], Found(151 + |data|, |server|, false, false), None)
  {
    var m := DisguiseMessage(data, server, e);
    assert m.body.block.Report(136) == Found(151 + |data|, |server|, false, false) by { DisguiseReport(data, server); }
    ParsesPrinted(m);
  }

  /** The disguise is exactly one handshake record. */
  lemma DisguiseIsWhole(data: seq<Byte>, server: seq<Byte>, e: Entropy)
    requires |data| + |server| + 212 <= 65535 && e.Ok()
    ensures var msg := HelloBytes(data, server, e);
            |msg| >= 5 && msg[0] == HANDSHAKE && msg[1] == TLS_MAJOR && 5 + U16At(msg, 3) == |msg|
  {
    var n := 208 + |data| + |server|;
    DisguiseMessageOk(data, server, e);
    HeadersRead(0x01, n);
    StartsWith(HelloBytes(data, server, e), Headers(0x01, n));
  }

  lemma StartsWith(msg: seq<Byte>, head: seq<Byte>)
    requires head <= msg && |head| >= 5
    ensures msg[0] == head[0] && msg[1] == head[1] && U16At(msg, 3) == U16At(head, 3)
  {
  }

  lemma DisguiseReport(data: seq<Byte>, server: seq<Byte>)
    requires |data| + |server| + 212 <= 65535
    ensures var block := Listed(Disguise(data, server), [], []);
            block.Ok() && block.Report(136) == Found(151 + |data|, |server|, false, false)
  {
    DisguiseTypes(data, server);
    DisguisePrints(data, server);
    SniBodyRead(server, []);
  }

  /** `makeClientHelloMsg`: successive writes to a growing buffer. */
  method MakeClientHelloMsg(data: seq<Byte>, server: seq<Byte>, e: Entropy) returns (buf: seq<Byte>)
    requires e.Ok()
    ensures buf == HelloBytes(data, server, e)
  {
    ghost var goal := HelloBytes(data, server, e);
    ghost var t7 := ServerNameBytes(server) + FixedExtensions();
    ghost var t6 := TicketBytes(data) + t7;
    ghost var t5 := PutU16(79 + |data| + |server|) + t6;
    ghost var t4 := [0x01] + ([0x00] + t5);
    ghost var t3 := CIPHER_SUITES + t4;
    ghost var t2 := [0x00, 0x38] + t3;
    ghost var t1 := e.sessionId + t2;

    // record header, handshake header, version, time and random
    buf := [22, 0x03, 0x01] + PutU16(212 + |data| + |server|);
    buf := buf + [1, 0] + PutU16(208 + |data| + |server|) + [0x03, 0x03];
    buf := buf + (e.stamp + e.random);
    assert goal == buf + ([32] + t1);
    // session id
    Associate(buf, [32], t1);
    buf := buf + [32];
    Associate(buf, e.sessionId, t2);
    buf := buf + e.sessionId;
    // cipher suites
    Associate(buf, [0x00, 0x38], t3);
    buf := buf + [0x00, 0x38];
    Associate(buf, CIPHER_SUITES, t4);
    buf := buf + CIPHER_SUITES;
    // compression
    assert t4 == [0x01, 0x00] + t5;
    Associate(buf, [0x01, 0x00], t5);
    buf := buf + [0x01, 0x00];
    // extensions
    Associate(buf, PutU16(79 + |data| + |server|), t6);
    buf := buf + PutU16(79 + |data| + |server|);
    Associate(buf, TicketBytes(data), t7);
    buf := buf + TicketBytes(data);
    Associate(buf, ServerNameBytes(server), FixedExtensions());
    buf := buf + ServerNameBytes(server);
    buf := buf + FixedExtensions();
  }

  // ----- framing -----

  /** An application data record of TLS 1.2. */
  function FrameBytes(c: seq<Byte>): seq<Byte> { Fragment.Record([0x17, 0x03, 0x03], c) }

  function Frames(cs: seq<seq<Byte>>): seq<Byte> {
    if cs == [] then [] else FrameBytes(cs[0]) + Frames(cs[1..])
  }

  /** The chunks one `Write` sends. */
  function Chunks(b: seq<Byte>): (cs: seq<seq<Byte>>)
    ensures Flatten(cs) == b
    ensures forall i :: 0 <= i < |cs| ==> 0 < |cs[i]| <= CHUNK_SIZE
    ensures forall i :: 0 <= i < |cs| - 1 ==> |cs[i]| == CHUNK_SIZE
    decreases |b|
  {
    if b == [] then []
    else if |b| <= CHUNK_SIZE then
      assert Flatten([b]) == b + Flatten<Byte>([]);
      [b]
    else
      var rest := Chunks(b[CHUNK_SIZE..]);
      assert b == b[..CHUNK_SIZE] + b[CHUNK_SIZE..];
      [b[..CHUNK_SIZE]] + rest
  }

  function DressedChunk(first: bool, c: seq<Byte>, server: seq<Byte>, e: Entropy): seq<Byte> {
    if first then HelloBytes(c, server, e) else FrameBytes(c)
  }

  /** What is written for a list of chunks, one write each; the very first one is dressed up as a ClientHello. */
  function Dressed(first: bool, cs: seq<seq<Byte>>, server: seq<Byte>, e: Entropy): seq<seq<Byte>>
    decreases |cs|
  {
    if cs == [] then [] else [DressedChunk(first, cs[0], server, e)] + Dressed(false, cs[1..], server, e)
  }

  /** After the first request the writes make up plain frames. */
  lemma {:induction false} DressedIsFramed(cs: seq<seq<Byte>>, server: seq<Byte>, e: Entropy)
    ensures Flatten(Dressed(false, cs, server, e)) == Frames(cs) && |Dressed(false, cs, server, e)| == |cs|
    decreases |cs|
  {
    if cs != [] {
      DressedIsFramed(cs[1..], server, e);
      assert Dressed(false, cs, server, e)[1..] == Dressed(false, cs[1..], server, e);
    }
  }

  lemma ChunkStep(b: seq<Byte>, i: nat, end: nat)
    requires i < |b| && end == (if i + CHUNK_SIZE > |b| then |b| else i + CHUNK_SIZE)
    ensures Chunks(b[i..]) == [b[i..end]] + Chunks(b[end..])
  {
    if end == |b| {
      assert b[i..end] == b[i..];
    } else {
      assert b[i..][..CHUNK_SIZE] == b[i..end] && b[i..][CHUNK_SIZE..] == b[end..];
    }
  }

  datatype ObfsError = EndOfFile | UnexpectedEof

  /** A read returns data and possibly an error, as `io.Reader` does. */
  datatype Reply = Reply(data: seq<Byte>, err: Option<ObfsError>)

  datatype ReadState = ReadState(input: seq<Byte>, remain: nat, firstResponse: bool)

  function ReadFull(input: seq<Byte>, k: nat): (r: Reply)
    ensures r.data <= input && |r.data| <= k
  {
    if |input| >= k then Reply(input[..k], None)
    else Reply(input, Some(if input == [] then EndOfFile else UnexpectedEof))
  }

  /** A single read of the connection: at least one octet if there is any, otherwise as many as `short` says. */
  function ReadSome(input: seq<Byte>, size: nat, short: nat): (r: Reply)
    ensures r.data <= input && |r.data| <= size
  {
    if size == 0 then Reply([], None)
    else if input == [] then Reply([], Some(EndOfFile))
    else
      var most := if size < |input| then size else |input|;
      Reply(input[..if short == 0 then 1 else if short < most then short else most], None)
  }

  function ReadFrame(st: ReadState, discard: nat, size: nat, short: nat): (ReadState, Reply) {
    var drained := ReadState([], st.remain, false);
    if |st.input| < discard then (drained, Reply([], ReadFull(st.input, discard).err))
    else
      var rest := st.input[discard..];
      if |rest| < 2 then (drained, Reply([], None))
      else
        var length, body := U16At(rest, 0), rest[2..];
        if length > size then
          var r := ReadSome(body, size, short);
          var input := body[|r.data|..];
          if r.err.Some? then (ReadState(input, st.remain, false), r)
          else (ReadState(input, length - |r.data|, false), r)
        else
          var r := ReadFull(body, length);
          (ReadState(body[|r.data|..], st.remain, false), r)
  }

  /** One call of `Read` with a buffer of `size` octets. */
  function ReadStep(st: ReadState, size: nat, short: nat): (ReadState, Reply) {
    if st.remain > 0 then
      var r := ReadFull(st.input, if st.remain > size then size else st.remain);
      (ReadState(st.input[|r.data|..], st.remain - |r.data|, st.firstResponse), r)
    else ReadFrame(st, Discard(st), size, short)
  }

  class TLSObfs {
    const server: seq<Byte>
    const entropy: Entropy
    const sink: Sink
    var input: seq<Byte>
    var remain: nat
    var firstRequest: bool
    var firstResponse: bool

    ghost predicate Valid()
      reads this
    {
      entropy.Ok()
    }

    function Reading(): ReadState
      reads this
    {
      ReadState(input, remain, firstResponse)
    }

    constructor (server: seq<Byte>, entropy: Entropy, sink: Sink, input: seq<Byte>)
      requires entropy.Ok()
      ensures Valid() && this.server == server && this.entropy == entropy && this.sink == sink
      ensures firstRequest && Reading() == ReadState(input, 0, true)
    {
      this.server, this.entropy, this.sink, this.input := server, entropy, sink, input;
      remain, firstRequest, firstResponse := 0, true, true;
    }

    method WriteChunk(b: seq<Byte>) returns (n: nat, ok: bool)
      requires Valid()
      modifies this`firstRequest, sink
      ensures sink.State() == Put(old(sink.State()), DressedChunk(old(firstRequest), b, server, entropy))
      ensures !firstRequest && n == |b| && (ok <==> old(sink.left) > 0)
    {
      n := |b|;
      if firstRequest {
        var hello := MakeClientHelloMsg(b, server, entropy);
        ok := sink.Write(hello);
        firstRequest := false;
      } else {
        var buf := [0x17, 0x03, 0x03];
        buf := buf + PutU16(|b|);
        buf := buf + b;
        ok := sink.Write(buf);
      }
    }

    /**
     `Write`: the dressed chunks of `b` are written up to the first failure, whose chunk alone is then reported.
     The first request is used up even if its write fails.
     */
    method Write(b: seq<Byte>) returns (n: nat, ok: bool)
      requires Valid()
      modifies this`firstRequest, sink
      ensures sink.State() == PutAll(old(sink.State()), Dressed(old(firstRequest), Chunks(b), server, entropy))
      ensures ok <==> |Chunks(b)| <= old(sink.left)
      ensures n == if ok then |b| else |Chunks(b)[old(sink.left)]|
      ensures firstRequest == (old(firstRequest) && b == [])
    {
      ghost var cs := Chunks(b);
      ghost var goal := PutAll(sink.State(), Dressed(firstRequest, cs, server, entropy));
      assert b[0..] == b;
      ghost var k := 0;
      var i := 0;
      while i < |b|
        invariant i <= |b| && k <= |cs| && Chunks(b[i..]) == cs[k..]
        invariant PutAll(sink.State(), Dressed(firstRequest, cs[k..], server, entropy)) == goal
        invariant sink.left == old(sink.left) - k
        invariant firstRequest == (old(firstRequest) && i == 0)
      {
        var end := i + CHUNK_SIZE;
        if end > |b| { end := |b|; }
        ChunkStep(b, i, end);
        assert cs[k..][0] == cs[k] == b[i..end] && cs[k..][1..] == cs[k + 1..];
        DressedStep(sink.State(), firstRequest, cs[k], cs[k + 1..], server, entropy);
        n, ok := WriteChunk(b[i..end]);
        if !ok { return; }
        i, k := end, k + 1;
      }
      assert b[i..] == [];
      return |b|, true;
    }

    /** `Read`: one step of the reader. */
    method Read(size: nat, short: nat) returns (r: Reply)
      modifies this`input, this`remain, this`firstResponse
      ensures (Reading(), r) == ReadStep(old(Reading()), size, short)
    {
      if remain > 0 {
        var length := remain;
        if length > size { length := size; }
        r := ReadFull(input, length);
        input := input[|r.data|..];
        remain := remain - |r.data|;
        return;
      }
      var discard := 3;
      if firstResponse {
        firstResponse := false;
        discard := 105;
      }
      if |input| < discard {
        r := Reply([], ReadFull(input, discard).err);
        input := [];
        return;
      }
      input := input[discard..];
      if |input| < 2 {
        input := [];
        return Reply([], None);
      }
      var length := U16At(input, 0);
      input := input[2..];
      if length > size {
        r := ReadSome(input, size, short);
        input := input[|r.data|..];
        if r.err.None? { remain := length - |r.data|; }
      } else {
        r := ReadFull(input, length);
        input := input[|r.data|..];
      }
    }
  }

  lemma DressedStep(sink: SinkState, first: bool, c: seq<Byte>, cs: seq<seq<Byte>>, server: seq<Byte>, e: Entropy)
    ensures var next := Put(sink, DressedChunk(first, c, server, e));
            PutAll(sink, Dressed(first, [c] + cs, server, e))
            == if sink.left == 0 then next else PutAll(next, Dressed(false, cs, server, e))
  {
    var x, rest := DressedChunk(first, c, server, e), Dressed(false, cs, server, e);
    assert ([c] + cs)[1..] == cs;
    assert ([x] + rest)[1..] == rest;
  }

  /**
   The first request of a session: its first write is one ClientHello that the repository's own parser reads, with the
   server name and the first chunk in it; the other chunks follow as frames.
   */
  lemma FirstRequestIsHello(b: seq<Byte>, server: seq<Byte>, e: Entropy)
    requires b != [] && |server| <= 48939 && e.Ok()
    ensures var c, ws := Chunks(b)[0], Dressed(true, Chunks(b), server, e);
            && ws != [] && IsHelloFor(ws[0], c, server) && Flatten(ws[1..]) == Frames(Chunks(b)[1..])
  {
    FirstIsHello(Chunks(b), server, e);
    RestIsFramed(Chunks(b), server, e);
  }

  lemma FirstIsHello(cs: seq<seq<Byte>>, server: seq<Byte>, e: Entropy)
    requires cs != [] && |cs[0]| + |server| + 212 <= 65535 && e.Ok()
    ensures var ws := Dressed(true, cs, server, e); ws != [] && IsHelloFor(ws[0], cs[0], server)
  {
    HelloIsFor(cs[0], server, e);
  }

  lemma RestIsFramed(cs: seq<seq<Byte>>, server: seq<Byte>, e: Entropy)
    requires cs != []
    ensures var ws := Dressed(true, cs, server, e); ws != [] && Flatten(ws[1..]) == Frames(cs[1..])
  {
    DressedSplits(cs, server, e);
    DressedIsFramed(cs[1..], server, e);
  }

  /** A ClientHello in which the parser finds `server` and nothing else, with `data` in its session ticket. */
  predicate IsHelloFor(msg: seq<Byte>, data: seq<Byte>, server: seq<Byte>) {
    && |msg| == 217 + |data| + |server|
    && ParseHello(msg) == Hello([0x03, 0x03], Found(151 + |data|, |server|, false, false), None)
    && msg[151 + |data|..151 + |data| + |server|] == server && msg[142..142 + |data|] == data
  }

  lemma HelloIsFor(data: seq<Byte>, server: seq<Byte>, e: Entropy)
    requires |data| + |server| + 212 <= 65535 && e.Ok()
    ensures IsHelloFor(HelloBytes(data, server, e), data, server)
  {
    DisguiseParses(data, server, e);
  }

  lemma DressedSplits(cs: seq<seq<Byte>>, server: seq<Byte>, e: Entropy)
    requires cs != []
    ensures var ws := Dressed(true, cs, server, e);
            |ws| >= 1 && ws[0] == HelloBytes(cs[0], server, e) && ws[1..] == Dressed(false, cs[1..], server, e)
  {
  }

  // ----- any input -----

  /** A read inside a frame returns what fits and is there, and fails exactly if less is there. */
  lemma ReadInside(st: ReadState, size: nat, short: nat)
    requires st.remain > 0
    ensures var (next, r) := ReadStep(st, size, short);
            var want := if st.remain > size then size else st.remain;
            && r.data == st.input[..if |st.input| < want then |st.input| else want]
            && next == ReadState(st.input[|r.data|..], st.remain - |r.data|, st.firstResponse)
            && (r.err.Some? <==> |st.input| < want)
  {
    assert st.input[..|st.input|] == st.input;
  }

  /** A read at a frame whose length is there: all of the frame if it fits, otherwise some of it, the rest to follow. */
  lemma ReadAtFrame(st: ReadState, size: nat, short: nat)
    requires st.remain == 0 && |st.input| >= Discard(st) + 2
    ensures var (next, r) := ReadStep(st, size, short);
            var length, body := U16At(st.input, Discard(st)), st.input[Discard(st) + 2..];
            && r.data <= body && next.input == body[|r.data|..] && !next.firstResponse
            && (length <= size ==>
                  && |r.data| == (if |body| < length then |body| else length) && next.remain == 0
                  && (r.err.Some? <==> |body| < length))
            && (length > size ==>
                  && |r.data| <= size && (r.data == [] <==> size == 0 || body == [])
                  && (r.err.Some? <==> size > 0 && body == [])
                  && (r.err.None? ==> next.remain == length - |r.data|))
  {
    var rest := st.input[Discard(st)..];
    assert rest[2..] == st.input[Discard(st) + 2..] && U16At(rest, 0) == U16At(st.input, Discard(st));
  }

  /**
   A read returns nothing and no error exactly for an empty frame, and when the connection has ended inside the two octets
   of a frame's length: that end goes unreported.
   */
  lemma SilentIff(st: ReadState, size: nat, short: nat)
    requires st.remain == 0 && size > 0
    ensures ReadStep(st, size, short).1 == Reply([], None)
            <==> if |st.input| >= Discard(st) + 2 then U16At(st.input, Discard(st)) == 0 else |st.input| >= Discard(st)
  {
    if |st.input| >= Discard(st) + 2 { ReadAtFrame(st, size, short); }
  }

  // ----- reading back -----

  predicate Framable(cs: seq<seq<Byte>>) {
    forall i :: 0 <= i < |cs| ==> |cs[i]| < 65536
  }

  /**
   `current` is what is left of the frame being read and `cs` the frames behind it.  Before the first frame stands a
   server's answer of 102 octets, which is skipped.
   */
  ghost predicate InStep(st: ReadState, current: seq<Byte>, cs: seq<seq<Byte>>) {
    && Framable(cs) && st.remain == |current|
    && if st.firstResponse then current == [] && |st.input| >= 102 && st.input[102..] == Frames(cs)
       else st.input == current + Frames(cs)
  }

  lemma FrameHead(c: seq<Byte>, rest: seq<Byte>)
    requires |c| < 65536
    ensures var s := FrameBytes(c) + rest;
            |s| >= 5 && U16At(s[3..], 0) == |c| && s[3..][2..] == c + rest
  {
    var s := FrameBytes(c) + rest;
    assert s[3..] == PutU16(|c|) + (c + rest);
    U16Suffix(s[3..], 0, |c|, c + rest);
  }

  lemma ReadSplits(body: seq<Byte>, c: seq<Byte>, rest: seq<Byte>, n: nat)
    requires body == c + rest && n <= |c|
    ensures body[..n] == c[..n] && body[n..] == c[n..] + rest && c[..n] + c[n..] == c
  {
  }

  lemma ReadsBody(st: ReadState, discard: nat, size: nat, short: nat, c: seq<Byte>, rest: seq<Byte>) returns (n: nat)
    requires st.remain == 0 && |c| < 65536 && discard + 2 <= |st.input|
    requires U16At(st.input[discard..], 0) == |c| && st.input[discard..][2..] == c + rest
    ensures n <= |c|
    ensures ReadFrame(st, discard, size, short) == (ReadState(c[n..] + rest, |c| - n, false), Reply(c[..n], None))
  {
    n := |ReadFrame(st, discard, size, short).1.data|;
    assert n <= |c|;
    ReadSplits(c + rest, c, rest, n);
  }

  function Discard(st: ReadState): nat { if st.firstResponse then 105 else 3 }

  lemma FrameAhead(st: ReadState, cs: seq<seq<Byte>>)
    requires InStep(st, [], cs) && cs != []
    ensures var rest := st.input[Discard(st) - 3..];
            rest == FrameBytes(cs[0]) + Frames(cs[1..])
  {
    if !st.firstResponse { assert st.input[0..] == [] + Frames(cs); }
  }

  lemma BodyAhead(input: seq<Byte>, discard: nat, c: seq<Byte>, rest: seq<Byte>)
    requires 3 <= discard <= |input| + 3 && |c| < 65536 && input[discard - 3..] == FrameBytes(c) + rest
    ensures discard + 2 <= |input|
    ensures U16At(input[discard..], 0) == |c| && input[discard..][2..] == c + rest
  {
    FrameHead(c, rest);
    assert input[discard..] == input[discard - 3..][3..];
  }

  /** The reader enters the next frame: what it returns and what it leaves make up the frame. */
  lemma EntersFrame(st: ReadState, cs: seq<seq<Byte>>, size: nat, short: nat) returns (left: seq<Byte>)
    requires InStep(st, [], cs) && cs != []
    ensures var (next, r) := ReadStep(st, size, short);
            r.err.None? && InStep(next, left, cs[1..]) && r.data + left == cs[0]
  {
    var c, rest, d := cs[0], Frames(cs[1..]), Discard(st);
    FrameAhead(st, cs);
    BodyAhead(st.input, d, c, rest);
    var n := ReadsBody(st, d, size, short, c, rest);
    StepIsFrame(st, size, short);
    left := c[n..];
    EnteredFrame(c, n, cs, ReadStep(st, size, short));
  }

  lemma StepIsFrame(st: ReadState, size: nat, short: nat)
    requires st.remain == 0
    ensures ReadStep(st, size, short) == ReadFrame(st, Discard(st), size, short)
  {
  }

  lemma EnteredFrame(c: seq<Byte>, n: nat, cs: seq<seq<Byte>>, step: (ReadState, Reply))
    requires Framable(cs) && cs != [] && c == cs[0] && n <= |c|
    requires step == (ReadState(c[n..] + Frames(cs[1..]), |c| - n, false), Reply(c[..n], None))
    ensures step.1.err.None? && InStep(step.0, c[n..], cs[1..]) && step.1.data + c[n..] == cs[0]
  {
    assert c[..n] + c[n..] == c;
  }

  lemma AtTheEnd(st: ReadState, size: nat, short: nat)
    requires InStep(st, [], [])
    ensures var (next, r) := ReadStep(st, size, short); r.data == [] && InStep(next, [], [])
  {
  }

  lemma StaysInFrame(st: ReadState, current: seq<Byte>, cs: seq<seq<Byte>>, size: nat, short: nat) returns (left: seq<Byte>)
    requires InStep(st, current, cs) && current != []
    ensures var (next, r) := ReadStep(st, size, short);
            r.err.None? && InStep(next, left, cs) && r.data + left == current
  {
    var n := if |current| > size then size else |current|;
    ReadSplits(st.input, current, Frames(cs), n);
    left := current[n..];
  }

  datatype Progress = Progress(state: ReadState, out: seq<Byte>)

  /** A run of reads, each with its buffer size and what the kernel hands over. */
  function ReadRun(st: ReadState, calls: seq<(nat, nat)>): Progress {
    if calls == [] then Progress(st, [])
    else
      var before, call := ReadRun(st, calls[..|calls| - 1]), calls[|calls| - 1];
      var (next, r) := ReadStep(before.state, call.0, call.1);
      Progress(next, before.out + r.data)
  }

  /**
   Every run of reads over framed data: what was returned, what is left of the current frame and the frames behind it
   make up the data, and `remain` is the size of what is left.
   */
  lemma {:induction false} EveryRead(st: ReadState, cs: seq<seq<Byte>>, calls: seq<(nat, nat)>)
    returns (left: seq<Byte>, k: nat)
    requires InStep(st, [], cs)
    ensures var p := ReadRun(st, calls);
            && k <= |cs| && InStep(p.state, left, cs[k..]) && p.out + left == Flatten(cs[..k])
            && p.out + left + Flatten(cs[k..]) == Flatten(cs)
    decreases |calls|
  {
    if calls == [] {
      left, k := [], 0;
      assert cs[0..] == cs && cs[..0] == [];
    } else {
      var before := calls[..|calls| - 1];
      left, k := EveryRead(st, cs, before);
      left, k := OneMore(ReadRun(st, before), left, cs, k, calls[|calls| - 1]);
    }
    FlattenAppend(cs[..k], cs[k..]);
    assert cs[..k] + cs[k..] == cs;
  }

  lemma OneMore(p: Progress, current: seq<Byte>, cs: seq<seq<Byte>>, k: nat, call: (nat, nat))
    returns (left: seq<Byte>, k': nat)
    requires k <= |cs| && InStep(p.state, current, cs[k..]) && p.out + current == Flatten(cs[..k])
    ensures var (next, r) := ReadStep(p.state, call.0, call.1);
            k' <= |cs| && InStep(next, left, cs[k'..]) && p.out + r.data + left == Flatten(cs[..k'])
  {
    var r := ReadStep(p.state, call.0, call.1).1;
    left, k' := [], k;
    if current != [] {
      left := StaysInFrame(p.state, current, cs[k..], call.0, call.1);
    } else if k < |cs| {
      left := EntersFrame(p.state, cs[k..], call.0, call.1);
      k' := k + 1;
      assert cs[k..][1..] == cs[k + 1..] && cs[k..][0] == cs[k];
      assert cs[..k + 1] == cs[..k] + [cs[k]];
      FlattenSnoc(cs[..k], cs[k]);
      assert p.out + [] == p.out;
    } else {
      assert cs[k..] == [];
      AtTheEnd(p.state, call.0, call.1);
    }
    Associate(p.out, r.data, left);
  }

  /** What a run of `Write` calls after the first puts on the wire, call by call. */
  function Written(bs: seq<seq<Byte>>): seq<Byte> {
    if bs == [] then [] else Frames(Chunks(bs[0])) + Written(bs[1..])
  }

  function AllChunks(bs: seq<seq<Byte>>): seq<seq<Byte>> {
    if bs == [] then [] else Chunks(bs[0]) + AllChunks(bs[1..])
  }

  lemma {:induction false} FramesAppend(cs: seq<seq<Byte>>, ds: seq<seq<Byte>>)
    ensures Frames(cs + ds) == Frames(cs) + Frames(ds)
  {
    if cs == [] {
      assert cs + ds == ds;
    } else {
      FramesAppend(cs[1..], ds);
      assert (cs + ds)[0] == cs[0] && (cs + ds)[1..] == cs[1..] + ds;
      Associate(FrameBytes(cs[0]), Frames(cs[1..]), Frames(ds));
    }
  }

  lemma {:induction false} WrittenIsFramed(bs: seq<seq<Byte>>)
    ensures Written(bs) == Frames(AllChunks(bs))
    ensures Framable(AllChunks(bs)) && Flatten(AllChunks(bs)) == Flatten(bs)
  {
    if bs != [] {
      WrittenIsFramed(bs[1..]);
      FramesAppend(Chunks(bs[0]), AllChunks(bs[1..]));
      FlattenAppend(Chunks(bs[0]), AllChunks(bs[1..]));
    }
  }

  /**
   Round trip of any run of `Write` calls after the first, read back through any buffers and any short reads, by a
   reader that may first have a server's answer of 102 octets to skip.
   */
  lemma WriteThenRead(bs: seq<seq<Byte>>, answer: seq<Byte>, first: bool, calls: seq<(nat, nat)>)
    returns (left: seq<Byte>, rest: seq<seq<Byte>>)
    requires first ==> |answer| == 102
    ensures var input := (if first then answer else []) + Written(bs);
            var p := ReadRun(ReadState(input, 0, first), calls);
            && InStep(p.state, left, rest) && p.out + left + Flatten(rest) == Flatten(bs)
            && (p.state.input == [] && !p.state.firstResponse ==> p.out == Flatten(bs))
  {
    var input, cs := (if first then answer else []) + Written(bs), AllChunks(bs);
    WrittenIsFramed(bs);
    if first { assert input[102..] == Frames(cs); }
    var k;
    left, k := EveryRead(ReadState(input, 0, first), cs, calls);
    rest := cs[k..];
    assert Frames(rest) == [] ==> rest == [];
  }
}
