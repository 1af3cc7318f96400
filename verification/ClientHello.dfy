/**
 The offset parser for TLS ClientHello records, and the grammar it recognises
 (section 4.1.2 of RFC 8446 and section 3 of RFC 6066).

 `ParseHello` is what the parser returns for any record of at least five octets; the method
 `ParseClientHello` computes it with a moving offset, as the program does.  `Body` is the grammar:
 the theorems relate the two in both directions.
 */
module ClientHello {
  import opened Bytes

  const HANDSHAKE: Byte := 0x16
  const TLS_MAJOR: Byte := 0x3
  const CLIENT_HELLO: Byte := 0x1
  const HANDSHAKE_HEADER := 4
  const EXT_SNI := 0x0000
  const EXT_KEY_SHARE := 0x0033
  const EXT_ECH := 0x00fe

  datatype HelloError =
    | NotHandshake | NotTls | RecordExceedsData | HandshakeTooShort | NotClientHello
    | HandshakeExceedsRecord | MandatoryTooShort | EndAfterRandom | SessionIdExceeds
    | NoCipherSuites | CipherSuitesExceed | NoCompression | CompressionExceeds
    | ExtensionsExceed | ExtensionExceeds
    | SniTooShort | SniListMismatch | SniEntryTooShort | SniNameType | SniNameExceeds

  datatype Found = Found(sniStart: int, sniLen: nat, hasKeyShare: bool, hasECH: bool)

  const NOTHING := Found(-1, 0, false, false)

  datatype Hello = Hello(version: seq<Byte>, found: Found, err: Option<HelloError>)

  // ----- the parser -----

  datatype Sni = BadSni(err: HelloError) | Sni(start: nat, len: nat)

  /** The first entry of the server name list in `data[s..e]`. */
  function ReadSni(data: seq<Byte>, s: nat, e: nat): (r: Sni)
    requires s <= e <= |data|
    ensures r.Sni? ==> r.start == s + 5 && r.start + r.len <= e
  {
    if e - s < 2 then BadSni(SniTooShort)
    else if U16At(data, s) + 2 != e - s then BadSni(SniListMismatch)
    else if s + 5 > e then BadSni(SniEntryTooShort)
    else if data[s + 2] != 0 then BadSni(SniNameType)
    else if s + 5 + U16At(data, s + 3) > e then BadSni(SniNameExceeds)
    else Sni(s + 5, U16At(data, s + 3))
  }

  function Flagged(f: Found, typ: nat): Found {
    f.(hasKeyShare := f.hasKeyShare || typ == EXT_KEY_SHARE, hasECH := f.hasECH || typ == EXT_ECH)
  }

  /** The extension loop from `offset` on, having found `f` so far. */
  function ScanExtensions(data: seq<Byte>, offset: nat, end: nat, f: Found): (r: (Found, Option<HelloError>))
    requires offset <= end <= |data|
    decreases end - offset
  {
    if offset + 4 > end then (f, None) else
    var typ, len := U16At(data, offset), U16At(data, offset + 2);
    var stop := offset + 4 + len;
    if stop > end then (f, Some(ExtensionExceeds)) else
    var g := Flagged(f, typ);
    if f.sniStart == -1 && typ == EXT_SNI then
      match ReadSni(data, offset + 4, stop)
      case BadSni(e) => (g, Some(e))
      case Sni(start, len) => ScanExtensions(data, stop, end, g.(sniStart := start, sniLen := len))
    else ScanExtensions(data, stop, end, g)
  }

  datatype Skip = NoLength | TooLong | At(offset: nat)

  /** Steps over a vector with a one-octet length. */
  function Skip8(data: seq<Byte>, o: nat): (r: Skip)
    ensures r.At? ==> o < r.offset <= |data|
  {
    if o >= |data| then NoLength
    else if o + 1 + data[o] > |data| then TooLong
    else At(o + 1 + data[o])
  }

  /** Steps over a vector with a two-octet length. */
  function Skip16(data: seq<Byte>, o: nat): (r: Skip)
    ensures r.At? ==> o + 2 <= r.offset <= |data|
  {
    if o + 2 > |data| then NoLength
    else if o + 2 + U16At(data, o) > |data| then TooLong
    else At(o + 2 + U16At(data, o))
  }

  function HandshakeLen(data: seq<Byte>): nat
    requires |data| >= 9
  {
    65536 * (data[6] as int) + 256 * (data[7] as int) + data[8]
  }

  function HeadError(data: seq<Byte>): (r: Option<HelloError>)
    requires |data| >= 5
    ensures r.None? ==> |data| >= 44
  {
    var recordLen := U16At(data, 3);
    if data[0] != HANDSHAKE then Some(NotHandshake)
    else if data[1] != TLS_MAJOR then Some(NotTls)
    else if |data| < RECORD_HEADER + recordLen then Some(RecordExceedsData)
    else if recordLen < HANDSHAKE_HEADER then Some(HandshakeTooShort)
    else if data[5] != CLIENT_HELLO then Some(NotClientHello)
    else if HandshakeLen(data) + HANDSHAKE_HEADER > recordLen then Some(HandshakeExceedsRecord)
    else if HandshakeLen(data) < 2 + 32 + 1 then Some(MandatoryTooShort)
    else None
  }

  function ParseExtensions(data: seq<Byte>, o: nat): (r: (Found, Option<HelloError>))
    requires o <= |data|
  {
    if o + 2 > |data| then (NOTHING, None)
    else if o + 2 + U16At(data, o) > |data| then (NOTHING, Some(ExtensionsExceed))
    else ScanExtensions(data, o + 2, o + 2 + U16At(data, o), NOTHING)
  }

  datatype Vectors = Cut(err: HelloError) | Whole(end: nat)

  /** Steps over session id, cipher suites and compression methods. */
  function SkipVectors(data: seq<Byte>): (r: Vectors)
    requires |data| >= 44
    ensures r.Whole? ==> 47 <= r.end <= |data|
  {
    match Skip8(data, 43)
    case NoLength => Cut(EndAfterRandom)
    case TooLong => Cut(SessionIdExceeds)
    case At(o1) =>
      match Skip16(data, o1)
      case NoLength => Cut(NoCipherSuites)
      case TooLong => Cut(CipherSuitesExceed)
      case At(o2) =>
        match Skip8(data, o2)
        case NoLength => Cut(NoCompression)
        case TooLong => Cut(CompressionExceeds)
        case At(o3) => Whole(o3)
  }

  function ParseBody(data: seq<Byte>): (r: (Found, Option<HelloError>))
    requires |data| >= 44
  {
    match SkipVectors(data)
    case Cut(e) => (NOTHING, Some(e))
    case Whole(o) => ParseExtensions(data, o)
  }

  function ParseHello(data: seq<Byte>): Hello
    requires |data| >= 5
  {
    match HeadError(data)
    case Some(e) => Hello([], NOTHING, Some(e))
    case None =>
      var (f, e) := ParseBody(data);
      Hello(data[9..11], f, e)
  }

  /** The parser as the program runs it: one pass, a moving offset and accumulating flags. */
  method ParseClientHello(data: seq<Byte>) returns (r: Hello)
    requires |data| >= 5
    ensures r == ParseHello(data)
  {
    var head := HeadError(data);
    if head.Some? { return Hello([], NOTHING, head); }
    var version := data[9..11];
    var offset := RECORD_HEADER + HANDSHAKE_HEADER + 2 + 32;
    var sessionIdLen := data[offset];
    offset := offset + 1;
    if offset + sessionIdLen > |data| { return Hello(version, NOTHING, Some(SessionIdExceeds)); }
    offset := offset + sessionIdLen;
    if offset + 2 > |data| { return Hello(version, NOTHING, Some(NoCipherSuites)); }
    var csLen := U16At(data, offset);
    offset := offset + 2;
    if offset + csLen > |data| { return Hello(version, NOTHING, Some(CipherSuitesExceed)); }
    offset := offset + csLen;
    if offset >= |data| { return Hello(version, NOTHING, Some(NoCompression)); }
    var compLen := data[offset];
    offset := offset + 1;
    if offset + compLen > |data| { return Hello(version, NOTHING, Some(CompressionExceeds)); }
    offset := offset + compLen;
    if offset + 2 > |data| { return Hello(version, NOTHING, None); }
    var extTotalLen := U16At(data, offset);
    offset := offset + 2;
    if offset + extTotalLen > |data| { return Hello(version, NOTHING, Some(ExtensionsExceed)); }
    var found, err := ScanLoop(data, offset, offset + extTotalLen);
    return Hello(version, found, err);
  }

  /** The extension loop as the program runs it. */
  method ScanLoop(data: seq<Byte>, start: nat, end: nat) returns (found: Found, err: Option<HelloError>)
    requires start <= end <= |data|
    ensures (found, err) == ScanExtensions(data, start, end, NOTHING)
  {
    var offset := start;
    found, err := NOTHING, None;
    while offset + 4 <= end
      invariant offset <= end
      invariant ScanExtensions(data, offset, end, found) == ScanExtensions(data, start, end, NOTHING)
      decreases end - offset
    {
      var extType, extLen := U16At(data, offset), U16At(data, offset + 2);
      var stop := offset + 4 + extLen;
      if stop > end { return found, Some(ExtensionExceeds); }
      var first := found.sniStart == -1;
      if extType == EXT_KEY_SHARE { found := found.(hasKeyShare := true); }
      if extType == EXT_ECH { found := found.(hasECH := true); }
      if first && extType == EXT_SNI {
        var sni := ReadSni(data, offset + 4, stop);
        if sni.BadSni? { return found, Some(sni.err); }
        found := found.(sniStart := sni.start, sniLen := sni.len);
      }
      offset := stop;
    }
  }

  // ----- where a returned name can lie -----

  predicate InRange(data: seq<Byte>, f: Found) {
    (f.sniStart == -1 && f.sniLen == 0) || (58 <= f.sniStart && f.sniStart + f.sniLen <= |data|)
  }

  lemma {:induction false} ScanInRange(data: seq<Byte>, offset: nat, end: nat, f: Found)
    requires 49 <= offset <= end <= |data| && InRange(data, f)
    ensures InRange(data, ScanExtensions(data, offset, end, f).0)
    decreases end - offset
  {
    if offset + 4 <= end {
      var typ, stop := U16At(data, offset), offset + 4 + U16At(data, offset + 2);
      if stop <= end {
        var g := Flagged(f, typ);
        if f.sniStart == -1 && typ == EXT_SNI {
          var sni := ReadSni(data, offset + 4, stop);
          if sni.Sni? {
            ScanInRange(data, stop, end, g.(sniStart := sni.start, sniLen := sni.len));
          }
        } else {
          ScanInRange(data, stop, end, g);
        }
      }
    }
  }

  /** On every input, whatever the outcome, a reported name lies inside the data and after octet 57. */
  lemma SniInBounds(data: seq<Byte>)
    requires |data| >= 5
    ensures InRange(data, ParseHello(data).found)
  {
    if HeadError(data).None? && SkipVectors(data).Whole? {
      var o := SkipVectors(data).end;
      if o + 2 <= |data| && o + 2 + U16At(data, o) <= |data| {
        ScanInRange(data, o + 2, o + 2 + U16At(data, o), NOTHING);
      }
    }
  }

  // ----- the grammar -----

  datatype Extension = Extension(typ: nat, body: seq<Byte>) {
    predicate Ok() { typ < 65536 && |body| < 65536 }
  }

  function PrintExtension(e: Extension): (r: seq<Byte>)
    ensures |r| == 4 + |e.body|
  {
    PutU16(e.typ) + PutU16(|e.body|) + e.body
  }

  function PrintExtensions(es: seq<Extension>): seq<Byte> {
    if es == [] then [] else PrintExtension(es[0]) + PrintExtensions(es[1..])
  }

  /** The body of a server_name extension whose first entry is `host`. */
  function SniBody(host: seq<Byte>, others: seq<Byte>): (r: seq<Byte>)
    ensures |r| == 5 + |host| + |others|
  {
    PutU16(|host| + 3 + |others|) + [0] + PutU16(|host|) + host + others
  }

  predicate IsSniBody(body: seq<Byte>) {
    |body| >= 5 && U16At(body, 0) + 2 == |body| && body[2] == 0 && U16At(body, 3) + 5 <= |body|
  }

  /** Index of the first server_name extension, or `|es|`. */
  function FirstSni(es: seq<Extension>): (k: nat)
    ensures k <= |es|
    ensures k < |es| ==> es[k].typ == EXT_SNI
    ensures forall i :: 0 <= i < k ==> es[i].typ != EXT_SNI
  {
    if es == [] || es[0].typ == EXT_SNI then 0 else 1 + FirstSni(es[1..])
  }

  predicate HasType(es: seq<Extension>, t: nat) {
    exists i :: 0 <= i < |es| && es[i].typ == t
  }

  predicate SniOk(es: seq<Extension>) {
    FirstSni(es) < |es| ==> IsSniBody(es[FirstSni(es)].body)
  }

  predicate ExtensionsOk(es: seq<Extension>) {
    forall i :: 0 <= i < |es| ==> es[i].Ok()
  }

  /** What a reader of the abstract list reports, when the printed list starts at `o`. */
  function Reported(es: seq<Extension>, o: nat): Found
    requires SniOk(es)
  {
    var k := FirstSni(es);
    var ks, ech := HasType(es, EXT_KEY_SHARE), HasType(es, EXT_ECH);
    if k == |es| then Found(-1, 0, ks, ech)
    else Found(o + |PrintExtensions(es[..k])| + 9, U16At(es[k].body, 3), ks, ech)
  }

  function Joined(f: Found, g: Found): Found {
    Found(if f.sniStart == -1 then g.sniStart else f.sniStart, if f.sniStart == -1 then g.sniLen else f.sniLen,
          f.hasKeyShare || g.hasKeyShare, f.hasECH || g.hasECH)
  }

  predicate Wanted(f: Found, es: seq<Extension>) {
    f.sniStart >= 0 || (f.sniStart == -1 && f.sniLen == 0 && SniOk(es))
  }

  /** `Reported`, continuing from what was found before. */
  function Continued(f: Found, es: seq<Extension>, o: nat): Found
    requires Wanted(f, es)
  {
    var ks, ech := f.hasKeyShare || HasType(es, EXT_KEY_SHARE), f.hasECH || HasType(es, EXT_ECH);
    if f.sniStart >= 0 then Found(f.sniStart, f.sniLen, ks, ech) else Joined(f, Reported(es, o))
  }

  lemma HasTypeCons(es: seq<Extension>, t: nat)
    requires es != []
    ensures HasType(es, t) <==> es[0].typ == t || HasType(es[1..], t)
  {
    if HasType(es, t) {
      var i :| 0 <= i < |es| && es[i].typ == t;
      if i > 0 { assert es[1..][i - 1].typ == t; }
    }
    if HasType(es[1..], t) {
      var i :| 0 <= i < |es[1..]| && es[1..][i].typ == t;
      assert es[i + 1].typ == t;
    }
  }

  /** What one extension adds to what was found. */
  function Noted(f: Found, e: Extension, o: nat): Found
    requires f.sniStart == -1 && e.typ == EXT_SNI ==> IsSniBody(e.body)
  {
    if f.sniStart == -1 && e.typ == EXT_SNI then Flagged(f, e.typ).(sniStart := o + 9, sniLen := U16At(e.body, 3))
    else Flagged(f, e.typ)
  }

  /** Passing an extension moves the origin by its printed size. */
  lemma ContinuedStep(f: Found, es: seq<Extension>, o: nat)
    requires es != [] && Wanted(f, es)
    ensures f.sniStart == -1 && es[0].typ == EXT_SNI ==> IsSniBody(es[0].body)
    ensures Wanted(Noted(f, es[0], o), es[1..])
    ensures Continued(f, es, o) == Continued(Noted(f, es[0], o), es[1..], o + |PrintExtension(es[0])|)
  {
    HasTypeCons(es, EXT_KEY_SHARE);
    HasTypeCons(es, EXT_ECH);
    if f.sniStart == -1 {
      var k := FirstSni(es);
      if k == 0 {
        assert es[..0] == [];
      } else if k < |es| {
        assert es[..k][0] == es[0] && es[..k][1..] == es[1..][..k - 1];
      }
    }
  }

  lemma SniBodyAt(data: seq<Byte>, s: nat, body: seq<Byte>)
    requires s + |body| <= |data| && data[s..s + |body|] == body
    ensures ReadSni(data, s, s + |body|).Sni? <==> IsSniBody(body)
    ensures IsSniBody(body) ==> ReadSni(data, s, s + |body|) == Sni(s + 5, U16At(body, 3))
  {
    forall i | 0 <= i < |body| ensures data[s + i] == body[i] { assert data[s..s + |body|][i] == body[i]; }
  }

  /** The extension at `offset`, read back. */
  function ExtensionAt(data: seq<Byte>, offset: nat): (e: Extension)
    requires offset + 4 <= |data| && offset + 4 + U16At(data, offset + 2) <= |data|
    ensures e.Ok()
  {
    Extension(U16At(data, offset), data[offset + 4..offset + 4 + U16At(data, offset + 2)])
  }

  lemma ExtensionAtPrints(data: seq<Byte>, offset: nat)
    requires offset + 4 <= |data| && offset + 4 + U16At(data, offset + 2) <= |data|
    ensures PrintExtension(ExtensionAt(data, offset)) == data[offset..offset + 4 + U16At(data, offset + 2)]
  {
  }

  lemma PrintedAt(data: seq<Byte>, offset: nat, end: nat, e: Extension, rest: seq<Byte>)
    requires offset <= end <= |data| && e.Ok() && data[offset..end] == PrintExtension(e) + rest
    ensures offset + 4 + |e.body| <= end
    ensures U16At(data, offset) == e.typ && U16At(data, offset + 2) == |e.body|
    ensures data[offset + 4..offset + 4 + |e.body|] == e.body
    ensures data[offset + 4 + |e.body|..end] == rest
  {
    var d := data[offset..end];
    assert forall i :: 0 <= i < |d| ==> d[i] == data[offset + i];
    assert d[0] == PutU16(e.typ)[0] && d[1] == PutU16(e.typ)[1];
    assert d[2] == PutU16(|e.body|)[0] && d[3] == PutU16(|e.body|)[1];
    assert data[offset + 4..offset + 4 + |e.body|] == d[4..4 + |e.body|] == e.body;
    assert data[offset + 4 + |e.body|..end] == d[4 + |e.body|..] == rest;
  }

  lemma ScanStep(data: seq<Byte>, offset: nat, end: nat, f: Found, e: Extension)
    requires offset + 4 + |e.body| <= end <= |data| && (f.sniStart == -1 && e.typ == EXT_SNI ==> IsSniBody(e.body))
    requires U16At(data, offset) == e.typ && U16At(data, offset + 2) == |e.body|
    requires data[offset + 4..offset + 4 + |e.body|] == e.body
    ensures ScanExtensions(data, offset, end, f) == ScanExtensions(data, offset + 4 + |e.body|, end, Noted(f, e, offset))
  {
    SniBodyAt(data, offset + 4, e.body);
  }

  /** The loop accepts every printed list and reports what the abstract list says. */
  lemma {:induction false} ScanPrinted(data: seq<Byte>, offset: nat, end: nat, f: Found, es: seq<Extension>, slack: seq<Byte>)
    requires offset <= end <= |data| && ExtensionsOk(es) && |slack| < 4 && Wanted(f, es)
    requires data[offset..end] == PrintExtensions(es) + slack
    ensures ScanExtensions(data, offset, end, f) == (Continued(f, es, offset), None)
    decreases |es|
  {
    if es == [] {
      ScanNothing(data, offset, end, f);
    } else {
      var next, g := ScanFirst(data, offset, end, f, es, slack);
      ScanPrinted(data, next, end, g, es[1..], slack);
    }
  }

  lemma ScanNothing(data: seq<Byte>, offset: nat, end: nat, f: Found)
    requires offset <= end <= |data| && end < offset + 4 && Wanted(f, [])
    ensures ScanExtensions(data, offset, end, f) == (Continued(f, [], offset), None)
  {
    assert !HasType([], EXT_KEY_SHARE) && !HasType([], EXT_ECH);
  }

  lemma ScanFirst(data: seq<Byte>, offset: nat, end: nat, f: Found, es: seq<Extension>, slack: seq<Byte>)
    returns (next: nat, g: Found)
    requires offset <= end <= |data| && ExtensionsOk(es) && es != [] && Wanted(f, es)
    requires data[offset..end] == PrintExtensions(es) + slack
    ensures next <= end && data[next..end] == PrintExtensions(es[1..]) + slack
    ensures Wanted(g, es[1..]) && Continued(f, es, offset) == Continued(g, es[1..], next)
    ensures ScanExtensions(data, offset, end, f) == ScanExtensions(data, next, end, g)
  {
    var e := es[0];
    next := offset + 4 + |e.body|;
    assert f.sniStart == -1 && e.typ == EXT_SNI ==> IsSniBody(e.body);
    g := Noted(f, e, offset);
    assert Wanted(g, es[1..]) && Continued(f, es, offset) == Continued(g, es[1..], next) by { ContinuedStep(f, es, offset); }
    assert next <= end && data[next..end] == PrintExtensions(es[1..]) + slack by { FirstPrinted(data, offset, end, es, slack); }
    assert ScanExtensions(data, offset, end, f) == ScanExtensions(data, next, end, g) by {
      FirstPrinted(data, offset, end, es, slack);
      ScanStep(data, offset, end, f, e);
    }
  }

  lemma FirstPrinted(data: seq<Byte>, offset: nat, end: nat, es: seq<Extension>, slack: seq<Byte>)
    requires offset <= end <= |data| && es != [] && es[0].Ok() && data[offset..end] == PrintExtensions(es) + slack
    ensures var n := |es[0].body|;
            && offset + 4 + n <= end
            && U16At(data, offset) == es[0].typ && U16At(data, offset + 2) == n
            && data[offset + 4..offset + 4 + n] == es[0].body
            && data[offset + 4 + n..end] == PrintExtensions(es[1..]) + slack
  {
    Associate(PrintExtension(es[0]), PrintExtensions(es[1..]), slack);
    PrintedAt(data, offset, end, es[0], PrintExtensions(es[1..]) + slack);
  }

  /** Whatever the loop accepts is a printed list followed by at most three stray octets. */
  lemma {:induction false} ScanAccepts(data: seq<Byte>, offset: nat, end: nat, f: Found)
    returns (es: seq<Extension>, slack: seq<Byte>)
    requires offset <= end <= |data|
    requires f.sniStart >= 0 || (f.sniStart == -1 && f.sniLen == 0)
    requires ScanExtensions(data, offset, end, f).1.None?
    ensures ExtensionsOk(es) && |slack| < 4 && Wanted(f, es)
    ensures data[offset..end] == PrintExtensions(es) + slack
    decreases end - offset
  {
    if offset + 4 > end {
      es, slack := [], data[offset..end];
    } else {
      var e := ExtensionAt(data, offset);
      var stop := offset + 4 + |e.body|;
      ExtensionAtPrints(data, offset);
      SniBodyAt(data, offset + 4, e.body);
      var more;
      more, slack := ScanAccepts(data, stop, end, Noted(f, e, offset));
      es := [e] + more;
      assert es[1..] == more;
      assert data[offset..end] == data[offset..stop] + data[stop..end];
      Associate(PrintExtension(e), PrintExtensions(more), slack);
      assert Wanted(f, es);
    }
  }

  /** Everything after the fixed part of a ClientHello.  `Bare` is a hello without an extension block. */
  datatype Block = Bare(rest: seq<Byte>) | Listed(es: seq<Extension>, slack: seq<Byte>, rest: seq<Byte>) {
    predicate Ok() {
      match this
      case Bare(rest) => |rest| < 2
      case Listed(es, slack, _) =>
        ExtensionsOk(es) && |slack| < 4 && SniOk(es) && |PrintExtensions(es)| + |slack| < 65536
    }
    function Print(): seq<Byte> {
      match this
      case Bare(rest) => rest
      case Listed(es, slack, rest) => PutU16(|PrintExtensions(es)| + |slack|) + (PrintExtensions(es) + slack + rest)
    }
    function Report(o: nat): Found
      requires Ok()
    {
      match this
      case Bare(_) => NOTHING
      case Listed(es, _, _) => Reported(es, o + 2)
    }
  }

  datatype Body = Body(sessionId: seq<Byte>, cipherSuites: seq<Byte>, compression: seq<Byte>, block: Block) {
    predicate Ok() {
      |sessionId| < 256 && |cipherSuites| < 65536 && |compression| < 256 && block.Ok()
    }
    function Vectors(): seq<Byte>
      requires Ok()
    {
      [|sessionId|] + (sessionId + (PutU16(|cipherSuites|) + (cipherSuites + ([|compression|] + (compression + block.Print())))))
    }
    function BlockOffset(): nat {
      47 + |sessionId| + |cipherSuites| + |compression|
    }
  }

  lemma Skip8Printed(data: seq<Byte>, o: nat, v: seq<Byte>, rest: seq<Byte>)
    requires o <= |data| && |v| < 256 && data[o..] == [|v|] + (v + rest)
    ensures Skip8(data, o) == At(o + 1 + |v|) && data[o + 1 + |v|..] == rest
  {
    assert data[o] == data[o..][0];
    assert data[o + 1 + |v|..] == data[o..][1 + |v|..];
  }

  lemma Skip16Printed(data: seq<Byte>, o: nat, v: seq<Byte>, rest: seq<Byte>)
    requires o <= |data| && |v| < 65536 && data[o..] == PutU16(|v|) + (v + rest)
    ensures Skip16(data, o) == At(o + 2 + |v|) && data[o + 2 + |v|..] == rest
  {
    U16Suffix(data, o, |v|, v + rest);
    assert data[o + 2 + |v|..] == data[o..][2 + |v|..];
  }

  lemma PrefixAt(data: seq<Byte>, o: nat, x: seq<Byte>, rest: seq<Byte>)
    requires o <= |data| && data[o..] == x + rest
    ensures o + |x| <= |data| && data[o..o + |x|] == x && data[o + |x|..] == rest
  {
    assert data[o..o + |x|] == data[o..][..|x|];
    assert data[o + |x|..] == data[o..][|x|..];
  }

  lemma ListedPrinted(data: seq<Byte>, o: nat, es: seq<Extension>, slack: seq<Byte>, rest: seq<Byte>)
    requires o <= |data| && Listed(es, slack, rest).Ok()
    requires data[o..] == PutU16(|PrintExtensions(es) + slack|) + ((PrintExtensions(es) + slack) + rest)
    ensures ParseExtensions(data, o) == (Reported(es, o + 2), None)
  {
    var printed := PrintExtensions(es) + slack;
    BlockFound(data, o, printed, rest);
    ScansAll(data, o + 2, o + 2 + |printed|, es, slack);
  }

  /** The text behind a length that covers it. */
  lemma BlockFound(data: seq<Byte>, o: nat, printed: seq<Byte>, rest: seq<Byte>)
    requires o <= |data| && |printed| < 65536 && data[o..] == PutU16(|printed|) + (printed + rest)
    ensures var end := o + 2 + |printed|;
            end <= |data| && data[o + 2..end] == printed && ParseExtensions(data, o) == ScanExtensions(data, o + 2, end, NOTHING)
  {
    U16Suffix(data, o, |printed|, printed + rest);
    PrefixAt(data, o + 2, printed, rest);
  }

  lemma ScansAll(data: seq<Byte>, offset: nat, end: nat, es: seq<Extension>, slack: seq<Byte>)
    requires offset <= end <= |data| && ExtensionsOk(es) && |slack| < 4 && SniOk(es)
    requires data[offset..end] == PrintExtensions(es) + slack
    ensures ScanExtensions(data, offset, end, NOTHING) == (Reported(es, offset), None)
  {
    ScanPrinted(data, offset, end, NOTHING, es, slack);
  }

  lemma BlockPrinted(data: seq<Byte>, o: nat, b: Block)
    requires o <= |data| && b.Ok() && data[o..] == b.Print()
    ensures ParseExtensions(data, o) == (b.Report(o), None)
  {
    match b
    case Bare(rest) =>
    case Listed(es, slack, rest) => ListedPrinted(data, o, es, slack, rest);
  }

  lemma VectorsPrinted(data: seq<Byte>, sid: seq<Byte>, cs: seq<Byte>, comp: seq<Byte>, rest: seq<Byte>)
    requires |data| >= 44 && |sid| < 256 && |cs| < 65536 && |comp| < 256
    requires data[43..] == [|sid|] + (sid + (PutU16(|cs|) + (cs + ([|comp|] + (comp + rest)))))
    ensures var o := 47 + |sid| + |cs| + |comp|;
            o <= |data| && data[o..] == rest && SkipVectors(data) == Whole(o)
  {
    var r2 := [|comp|] + (comp + rest);
    var r1 := PutU16(|cs|) + (cs + r2);
    var o1, o2 := 44 + |sid|, 46 + |sid| + |cs|;
    assert Skip8(data, 43) == At(o1) && data[o1..] == r1 by { Skip8Printed(data, 43, sid, r1); }
    assert Skip16(data, o1) == At(o2) && data[o2..] == r2 by { Skip16Printed(data, o1, cs, r2); }
    assert Skip8(data, o2) == At(o2 + 1 + |comp|) && data[o2 + 1 + |comp|..] == rest by { Skip8Printed(data, o2, comp, rest); }
  }

  /** Completeness: a record whose head is in order and whose vectors are `b` parses to what `b` says. */
  lemma ParsesLaidOut(data: seq<Byte>, b: Body)
    requires |data| >= 5 && HeadError(data).None? && b.Ok() && data[43..] == b.Vectors()
    ensures ParseHello(data) == Hello(data[9..11], b.block.Report(b.BlockOffset()), None)
  {
    var o := b.BlockOffset();
    assert o <= |data| && data[o..] == b.block.Print() && SkipVectors(data) == Whole(o) by {
      VectorsPrinted(data, b.sessionId, b.cipherSuites, b.compression, b.block.Print());
    }
    BlockPrinted(data, o, b.block);
  }

  lemma Skip8Splits(data: seq<Byte>, o: nat)
    requires o <= |data| && Skip8(data, o).At?
    ensures var v := data[o + 1..Skip8(data, o).offset];
            |v| < 256 && data[o..] == [|v|] + (v + data[Skip8(data, o).offset..])
  {
  }

  lemma Skip16Splits(data: seq<Byte>, o: nat)
    requires o <= |data| && Skip16(data, o).At?
    ensures var v := data[o + 2..Skip16(data, o).offset];
            |v| < 65536 && data[o..] == PutU16(|v|) + (v + data[Skip16(data, o).offset..])
  {
  }

  lemma BlockSplits(data: seq<Byte>, o: nat) returns (b: Block)
    requires o <= |data| && ParseExtensions(data, o).1.None?
    ensures b.Ok() && data[o..] == b.Print()
  {
    if o + 2 > |data| {
      b := Bare(data[o..]);
    } else {
      b := ListedSplits(data, o);
    }
  }

  lemma ListedSplits(data: seq<Byte>, o: nat) returns (b: Block)
    requires o + 2 <= |data| && ParseExtensions(data, o).1.None?
    ensures b.Ok() && data[o..] == b.Print()
  {
    var n := U16At(data, o);
    var end := o + 2 + n;
    var es, slack := ScanAccepts(data, o + 2, end, NOTHING);
    b := Listed(es, slack, data[end..]);
    BlockText(data, o, PrintExtensions(es) + slack);
  }

  lemma BlockText(data: seq<Byte>, o: nat, printed: seq<Byte>)
    requires o + 2 <= |data| && o + 2 + U16At(data, o) <= |data| && data[o + 2..o + 2 + U16At(data, o)] == printed
    ensures |printed| == U16At(data, o)
    ensures data[o..] == PutU16(|printed|) + (printed + data[o + 2 + U16At(data, o)..])
  {
    var end := o + 2 + U16At(data, o);
    PutU16At(data, o);
    assert data[o..] == data[o..o + 2] + (data[o + 2..end] + data[end..]);
  }

  lemma VectorsSplit(data: seq<Byte>) returns (sid: seq<Byte>, cs: seq<Byte>, comp: seq<Byte>)
    requires |data| >= 44 && SkipVectors(data).Whole?
    ensures |sid| < 256 && |cs| < 65536 && |comp| < 256
    ensures data[43..] == [|sid|] + (sid + (PutU16(|cs|) + (cs + ([|comp|] + (comp + data[SkipVectors(data).end..])))))
  {
    var o1 := Skip8(data, 43).offset;
    var o2 := Skip16(data, o1).offset;
    var o3 := Skip8(data, o2).offset;
    Skip8Splits(data, 43);
    Skip16Splits(data, o1);
    Skip8Splits(data, o2);
    sid, cs, comp := data[44..o1], data[o1 + 2..o2], data[o2 + 1..o3];
  }

  /** Soundness: a record that parses has a head in order and vectors that the grammar derives. */
  lemma AcceptedIsLaidOut(data: seq<Byte>) returns (b: Body)
    requires |data| >= 5 && ParseHello(data).err.None?
    ensures HeadError(data).None? && b.Ok() && data[43..] == b.Vectors()
  {
    var sid, cs, comp := VectorsSplit(data);
    var block := BlockSplits(data, SkipVectors(data).end);
    b := Body(sid, cs, comp, block);
  }

  /** The grammar derives the record with a key_share extension in its list. */
  ghost predicate OffersKeyShare(data: seq<Byte>) {
    && |data| >= 44
    && exists b: Body :: b.Ok() && data[43..] == b.Vectors() && b.block.Listed? && HasType(b.block.es, 0x0033)
  }

  /** Of a record that parses, the flag says exactly whether key_share is listed. */
  lemma KeyShareIff(data: seq<Byte>)
    requires |data| >= 5 && ParseHello(data).err.None?
    ensures ParseHello(data).found.hasKeyShare <==> OffersKeyShare(data)
  {
    if ParseHello(data).found.hasKeyShare {
      var b := AcceptedIsLaidOut(data);
      ParsesLaidOut(data, b);
      assert b.block.Listed? && HasType(b.block.es, EXT_KEY_SHARE);
    }
    if OffersKeyShare(data) {
      var b: Body :| b.Ok() && data[43..] == b.Vectors() && b.block.Listed? && HasType(b.block.es, EXT_KEY_SHARE);
      ParsesLaidOut(data, b);
    }
  }

  // ----- whole records -----

  /** The record header and the handshake header of a ClientHello of `n` octets. */
  function Headers(minor: Byte, n: nat): (r: seq<Byte>)
    ensures |r| == 9
  {
    [HANDSHAKE, TLS_MAJOR, minor] + PutU16(n + 4) + [CLIENT_HELLO, 0] + PutU16(n)
  }

  lemma HeadersRead(minor: Byte, n: nat)
    requires n + 4 < 65536
    ensures var h := Headers(minor, n);
            && h[0] == HANDSHAKE && h[1] == TLS_MAJOR && h[5] == CLIENT_HELLO && h[6] == 0
            && U16At(h, 3) == n + 4 && U16At(h, 7) == n
  {
    var h := Headers(minor, n);
    assert h[3] == PutU16(n + 4)[0] && h[4] == PutU16(n + 4)[1];
    assert h[7] == PutU16(n)[0] && h[8] == PutU16(n)[1];
  }

  /** A ClientHello that fits one record. */
  datatype Message = Message(recordMinor: Byte, version: seq<Byte>, random: seq<Byte>, body: Body) {
    predicate Ok() {
      |version| == 2 && |random| == 32 && body.Ok() && 38 + |body.Vectors()| < 65536
    }
    function Print(): (r: seq<Byte>)
      requires Ok()
      ensures |r| == 43 + |body.Vectors()|
    {
      Headers(recordMinor, 34 + |body.Vectors()|) + (version + (random + body.Vectors()))
    }
  }

  lemma PrintedHead(m: Message)
    requires m.Ok()
    ensures HeadError(m.Print()).None?
    ensures m.Print()[9..11] == m.version && m.Print()[43..] == m.body.Vectors()
  {
    var n := 34 + |m.body.Vectors()|;
    HeadersRead(m.recordMinor, n);
    HeadOfParts(Headers(m.recordMinor, n), m.version, m.random, m.body.Vectors());
  }

  lemma HeadOfParts(h: seq<Byte>, version: seq<Byte>, random: seq<Byte>, rest: seq<Byte>)
    requires |h| == 9 && |version| == 2 && |random| == 32 && |rest| >= 1
    requires h[0] == HANDSHAKE && h[1] == TLS_MAJOR && h[5] == CLIENT_HELLO && h[6] == 0
    requires 35 <= U16At(h, 7) <= U16At(h, 3) - 4 && U16At(h, 3) <= 38 + |rest|
    ensures var d := h + (version + (random + rest));
            HeadError(d).None? && d[9..11] == version && d[43..] == rest
  {
    var d := h + (version + (random + rest));
    assert forall i :: 0 <= i < 9 ==> d[i] == h[i];
    assert d[9..] == version + (random + rest);
    assert d[9..11] == d[9..][..2] && d[43..] == d[9..][34..];
  }

  /** Round trip: every printed ClientHello parses, and the report is that of its abstract body. */
  lemma ParsesPrinted(m: Message)
    requires m.Ok()
    ensures ParseHello(m.Print()) == Hello(m.version, m.body.block.Report(m.body.BlockOffset()), None)
  {
    PrintedHead(m);
    ParsesLaidOut(m.Print(), m.body);
  }

  /**
   Everything the parser accepts: a handshake record of TLS that starts with a ClientHello.  Neither length field has to
   cover what follows it; the record must be there, hold the handshake message, and the message the mandatory fields.
   */
  datatype LooseMessage = LooseMessage(minor: Byte, recordLen: nat, handshakeLen: nat, version: seq<Byte>, random: seq<Byte>, body: Body) {
    predicate Ok() {
      && |version| == 2 && |random| == 32 && body.Ok()
      && 2 + 32 + 1 <= handshakeLen && handshakeLen + 4 <= recordLen < 65536 && 5 + recordLen <= 43 + |body.Vectors()|
    }
    function Print(): seq<Byte>
      requires Ok()
    {
      [0x16, 0x03, minor] + PutU16(recordLen) + [0x01, 0x00] + PutU16(handshakeLen) + (version + (random + body.Vectors()))
    }
  }

  ghost predicate Derivable(data: seq<Byte>) {
    exists m: LooseMessage :: m.Ok() && data == m.Print()
  }

  lemma LooseHeaders(minor: Byte, recordLen: nat, handshakeLen: nat)
    requires recordLen < 65536 && handshakeLen < 65536
    ensures var h := [0x16, 0x03, minor] + PutU16(recordLen) + [0x01, 0x00] + PutU16(handshakeLen);
            && |h| == 9 && h[0] == 0x16 && h[1] == 0x03 && h[5] == 0x01 && h[6] == 0x00
            && U16At(h, 3) == recordLen && U16At(h, 7) == handshakeLen
  {
    var h := [0x16, 0x03, minor] + PutU16(recordLen) + [0x01, 0x00] + PutU16(handshakeLen);
    assert h[3] == PutU16(recordLen)[0] && h[4] == PutU16(recordLen)[1];
    assert h[7] == PutU16(handshakeLen)[0] && h[8] == PutU16(handshakeLen)[1];
  }

  lemma LooseHead(m: LooseMessage)
    requires m.Ok()
    ensures |m.Print()| >= 44 && HeadError(m.Print()).None? && m.Print()[43..] == m.body.Vectors()
  {
    var h := [0x16, 0x03, m.minor] + PutU16(m.recordLen) + [0x01, 0x00] + PutU16(m.handshakeLen);
    LooseHeaders(m.minor, m.recordLen, m.handshakeLen);
    HeadOfParts(h, m.version, m.random, m.body.Vectors());
  }

  lemma HeadSplits(data: seq<Byte>)
    requires |data| >= 44 && data[0] == 0x16 && data[1] == 0x03 && data[5] == 0x01 && data[6] == 0x00
    ensures data == [0x16, 0x03, data[2]] + PutU16(U16At(data, 3)) + [0x01, 0x00] + PutU16(U16At(data, 7))
                    + (data[9..11] + (data[11..43] + data[43..]))
  {
    PutU16At(data, 3);
    PutU16At(data, 7);
    assert data[..3] == [0x16, 0x03, data[2]] && data[5..7] == [0x01, 0x00];
    assert data == data[..3] + data[3..5] + data[5..7] + data[7..9] + (data[9..11] + (data[11..43] + data[43..]));
  }

  /** The parser recognises exactly the grammar. */
  lemma ParsesExactlyTheGrammar(data: seq<Byte>)
    requires |data| >= 5
    ensures ParseHello(data).err.None? <==> Derivable(data)
  {
    if ParseHello(data).err.None? {
      var b := AcceptedIsLaidOut(data);
      HeadSplits(data);
      var m := LooseMessage(data[2], U16At(data, 3), U16At(data, 7), data[9..11], data[11..43], b);
      assert m.Ok() && data == m.Print();
    }
    if Derivable(data) {
      var m: LooseMessage :| m.Ok() && data == m.Print();
      LooseHead(m);
      ParsesLaidOut(data, m.body);
    }
  }

  lemma {:induction false} PrintExtensionsAppend(a: seq<Extension>, b: seq<Extension>)
    ensures PrintExtensions(a + b) == PrintExtensions(a) + PrintExtensions(b)
  {
    if a == [] {
      assert a + b == b;
    } else {
      PrintExtensionsAppend(a[1..], b);
      assert (a + b)[0] == a[0] && (a + b)[1..] == a[1..] + b;
      Associate(PrintExtension(a[0]), PrintExtensions(a[1..]), PrintExtensions(b));
    }
  }

  lemma PrintExtensionsSplit(es: seq<Extension>, k: nat)
    requires k < |es|
    ensures PrintExtensions(es) == PrintExtensions(es[..k]) + (PrintExtension(es[k]) + PrintExtensions(es[k + 1..]))
  {
    var a, b := es[..k], es[k..];
    assert es == a + b;
    PrintExtensionsAppend(a, b);
    assert b[0] == es[k] && b[1..] == es[k + 1..];
  }

  lemma SniBodyRead(host: seq<Byte>, others: seq<Byte>)
    requires |host| + |others| + 5 < 65536
    ensures var b := SniBody(host, others);
            IsSniBody(b) && U16At(b, 3) == |host| && b[5..5 + |host|] == host
  {
    var b := SniBody(host, others);
    assert b[0] == PutU16(|host| + 3 + |others|)[0] && b[1] == PutU16(|host| + 3 + |others|)[1];
    assert b[3] == PutU16(|host|)[0] && b[4] == PutU16(|host|)[1];
  }

  lemma BlockAt(m: Message)
    requires m.Ok()
    ensures m.body.BlockOffset() <= |m.Print()| && m.Print()[m.body.BlockOffset()..] == m.body.block.Print()
  {
    PrintedHead(m);
    VectorsPrinted(m.Print(), m.body.sessionId, m.body.cipherSuites, m.body.compression, m.body.block.Print());
  }

  lemma NameInside(text: seq<Byte>, pre: seq<Byte>, e: Extension, post: seq<Byte>, host: seq<Byte>, others: seq<Byte>)
    requires text == pre + (PrintExtension(e) + post) && e.body == SniBody(host, others)
    ensures |pre| + 9 + |host| <= |text| && text[|pre| + 9..|pre| + 9 + |host|] == host
  {
    forall i | 0 <= i < |host| ensures text[|pre| + 9 + i] == host[i] {
      assert text[|pre| + 9 + i] == PrintExtension(e)[9 + i] == e.body[5 + i];
    }
  }

  lemma NameAt(d: seq<Byte>, o: nat, es: seq<Extension>, k: nat, tail: seq<Byte>, host: seq<Byte>, others: seq<Byte>)
    requires o <= |d| && d[o..] == PrintExtensions(es) + tail
    requires k < |es| && es[k].body == SniBody(host, others)
    ensures var s := o + |PrintExtensions(es[..k])| + 9;
            s + |host| <= |d| && d[s..s + |host|] == host
  {
    PrintExtensionsSplit(es, k);
    var pre, post := PrintExtensions(es[..k]), PrintExtensions(es[k + 1..]) + tail;
    Associate(pre, PrintExtension(es[k]) + PrintExtensions(es[k + 1..]), tail);
    Associate(PrintExtension(es[k]), PrintExtensions(es[k + 1..]), tail);
    NameInside(d[o..], pre, es[k], post, host, others);
    var s := o + |pre| + 9;
    assert d[s..s + |host|] == d[o..][|pre| + 9..|pre| + 9 + |host|];
  }

  /** The reported range of a record holds exactly the host name of its first server_name extension. */
  lemma NameOfLaidOut(data: seq<Byte>, b: Body, k: nat, host: seq<Byte>, others: seq<Byte>)
    requires |data| >= 5 && HeadError(data).None? && b.Ok() && data[43..] == b.Vectors()
    requires b.block.Listed? && k == FirstSni(b.block.es) < |b.block.es| && b.block.es[k].body == SniBody(host, others)
    ensures var f := ParseHello(data).found;
            f.sniLen == |host| && 0 <= f.sniStart && f.sniStart + f.sniLen <= |data| && data[f.sniStart..f.sniStart + f.sniLen] == host
  {
    var block, o := b.block, b.BlockOffset();
    NameInBlock(data, o, block, k, host, others) by {
      VectorsPrinted(data, b.sessionId, b.cipherSuites, b.compression, block.Print());
    }
    assert ParseHello(data).found == block.Report(o) by { ParsesLaidOut(data, b); }
  }

  lemma NameInBlock(data: seq<Byte>, o: nat, block: Block, k: nat, host: seq<Byte>, others: seq<Byte>)
    requires o <= |data| && block.Ok() && block.Listed? && data[o..] == block.Print()
    requires k == FirstSni(block.es) < |block.es| && block.es[k].body == SniBody(host, others)
    ensures var f := block.Report(o);
            f.sniLen == |host| && 0 <= f.sniStart && f.sniStart + f.sniLen <= |data| && data[f.sniStart..f.sniStart + f.sniLen] == host
  {
    NameLength(block.es[k], host, others);
    ReportOf(block, o, k);
    ListedAt(data, o, block);
    NameAt(data, o + 2, block.es, k, block.slack + block.rest, host, others);
  }

  /** In particular of a printed one. */
  lemma ReportedNameIsHost(m: Message, k: nat, host: seq<Byte>, others: seq<Byte>)
    requires m.Ok() && m.body.block.Listed?
    requires k == FirstSni(m.body.block.es) < |m.body.block.es|
    requires m.body.block.es[k].body == SniBody(host, others)
    ensures var f := ParseHello(m.Print()).found;
            f.sniLen == |host| && 0 <= f.sniStart && f.sniStart + f.sniLen <= |m.Print()|
            && m.Print()[f.sniStart..f.sniStart + f.sniLen] == host
  {
    PrintedHead(m);
    NameOfLaidOut(m.Print(), m.body, k, host, others);
  }

  /** The grammar derives the record with `host` as the first entry of its first server_name extension. */
  ghost predicate Names(data: seq<Byte>, host: seq<Byte>) {
    && |data| >= 44
    && exists b: Body, others: seq<Byte> ::
         && b.Ok() && data[43..] == b.Vectors() && b.block.Listed?
         && FirstSni(b.block.es) < |b.block.es| && b.block.es[FirstSni(b.block.es)].body == SniBody(host, others)
  }

  lemma SniBodySplits(body: seq<Byte>)
    requires IsSniBody(body)
    ensures body == SniBody(body[5..5 + U16At(body, 3)], body[5 + U16At(body, 3)..])
  {
    var n := U16At(body, 3);
    PutU16At(body, 0);
    PutU16At(body, 3);
    assert body[2..3] == [0];
    assert body == body[0..2] + body[2..3] + body[3..5] + body[5..5 + n] + body[5 + n..];
  }

  /** Of a record that parses, the reported range is that of the name the grammar gives it, and there is none without a name. */
  lemma NamesIff(data: seq<Byte>, host: seq<Byte>)
    requires |data| >= 5 && ParseHello(data).err.None?
    ensures var f := ParseHello(data).found;
            f.sniStart < 0 || (0 <= f.sniStart && f.sniStart + f.sniLen <= |data|)
    ensures var f := ParseHello(data).found;
            Names(data, host) <==> f.sniStart >= 0 && data[f.sniStart..f.sniStart + f.sniLen] == host
  {
    SniInBounds(data);
    var f := ParseHello(data).found;
    if Names(data, host) {
      var b: Body, others: seq<Byte> :|
        && b.Ok() && data[43..] == b.Vectors() && b.block.Listed?
        && FirstSni(b.block.es) < |b.block.es| && b.block.es[FirstSni(b.block.es)].body == SniBody(host, others);
      NameOfLaidOut(data, b, FirstSni(b.block.es), host, others);
    }
    if f.sniStart >= 0 {
      var b := AcceptedIsLaidOut(data);
      ParsesLaidOut(data, b);
      NamedByBody(data, b);
    }
  }

  lemma NamedByBody(data: seq<Byte>, b: Body)
    requires |data| >= 5 && HeadError(data).None? && b.Ok() && data[43..] == b.Vectors()
    requires ParseHello(data).found == b.block.Report(b.BlockOffset()) && ParseHello(data).found.sniStart >= 0
    ensures var f := ParseHello(data).found;
            f.sniStart + f.sniLen <= |data| && Names(data, data[f.sniStart..f.sniStart + f.sniLen])
  {
    assert b.block.Listed?;
    var k := FirstSni(b.block.es);
    var body := b.block.es[k].body;
    SniBodySplits(body);
    NameOfLaidOut(data, b, k, body[5..5 + U16At(body, 3)], body[5 + U16At(body, 3)..]);
  }

  lemma ReportOf(block: Block, o: nat, k: nat)
    requires block.Ok() && block.Listed? && k == FirstSni(block.es) < |block.es|
    ensures IsSniBody(block.es[k].body)
    ensures block.Report(o).sniStart == o + 2 + |PrintExtensions(block.es[..k])| + 9
    ensures block.Report(o).sniLen == U16At(block.es[k].body, 3)
  {
  }

  lemma NameLength(e: Extension, host: seq<Byte>, others: seq<Byte>)
    requires e.Ok() && e.body == SniBody(host, others)
    ensures IsSniBody(e.body) && U16At(e.body, 3) == |host|
  {
    SniBodyRead(host, others);
  }

  lemma ListedAt(d: seq<Byte>, o: nat, block: Block)
    requires o <= |d| && block.Listed? && d[o..] == block.Print()
    ensures o + 2 <= |d| && d[o + 2..] == PrintExtensions(block.es) + (block.slack + block.rest)
  {
    var x, y, z := PrintExtensions(block.es), block.slack, block.rest;
    PrefixAt(d, o, PutU16(|x| + |y|), x + y + z);
    assert x + y + z == x + (y + z);
  }
}
