/** SOCKS5 addresses and UDP datagrams (sections 5 and 7 of RFC 1928). */
module Socks5 {
  import opened Bytes

  const ATYP_IPV4: Byte := 0x01
  const ATYP_DOMAIN: Byte := 0x03
  const ATYP_IPV6: Byte := 0x04
  const MAX_ADDR_LEN := 1 + 1 + 255 + 2

  /** An IP address; `NoIP` is the zero value that is neither version. */
  datatype IP = V4(bytes: seq<Byte>) | V6(bytes: seq<Byte>) | NoIP {
    predicate Ok() { (V4? ==> |bytes| == 4) && (V6? ==> |bytes| == 16) }
  }

  /** A destination: the name, if not empty, takes precedence over the address. */
  datatype Dest = Dest(name: seq<Byte>, ip: IP, port: nat) {
    predicate Ok() { ip.Ok() && port < 65536 }
    /** Names that fit a length octet, and real addresses. */
    predicate Representable() { if name != [] then |name| <= 255 else !ip.NoIP? }
  }

  function SerializeAddr(d: Dest): (r: seq<Byte>)
    requires d.Ok()
    ensures |r| >= 3 && r[0] == if d.name != [] then 0x03 else if d.ip.V4? then 0x01 else 0x04
  {
    if d.name != [] then [ATYP_DOMAIN, |d.name| % 256] + d.name + PutU16(d.port)
    else match d.ip
      case V4(b) => [ATYP_IPV4] + b + PutU16(d.port)
      case V6(b) => [ATYP_IPV6] + b + PutU16(d.port)
      case NoIP => [ATYP_IPV6] + PutU16(d.port)
  }

  /** The length an address announces in its first two octets, if it announces one. */
  function AddrLen(b: seq<Byte>): Option<nat> {
    if |b| < 1 then None
    else if b[0] == ATYP_DOMAIN then (if |b| < 2 then None else Some(1 + 1 + (b[1] as int) + 2))
    else if b[0] == ATYP_IPV4 then Some(1 + 4 + 2)
    else if b[0] == ATYP_IPV6 then Some(1 + 16 + 2)
    else None
  }

  function SplitAddr(b: seq<Byte>): Option<seq<Byte>> {
    match AddrLen(b)
    case None => None
    case Some(n) => if |b| < n then None else Some(b[..n])
  }

  /** Who was meant, read off a split address. */
  function ParseAddr(a: seq<Byte>): Option<Dest> {
    if SplitAddr(a) != Some(a) then None
    else if a[0] == ATYP_DOMAIN then
      if a[1] == 0 then None else Some(Dest(a[2..2 + (a[1] as int)], NoIP, U16At(a, 2 + (a[1] as int))))
    else if a[0] == ATYP_IPV4 then Some(Dest([], V4(a[1..5]), U16At(a, 5)))
    else Some(Dest([], V6(a[1..17]), U16At(a, 17)))
  }

  /**
   Addresses are prefix-free: whatever follows it, a serialised address is split off whole.  This holds exactly for
   the destinations the format can represent.
   */
  lemma SplitsOffIff(d: Dest)
    requires d.Ok()
    ensures (forall rest :: SplitAddr(SerializeAddr(d) + rest) == Some(SerializeAddr(d))) <==> d.Representable()
  {
    var a := SerializeAddr(d);
    if d.Representable() {
      forall rest ensures SplitAddr(a + rest) == Some(a) {
        assert (a + rest)[..|a|] == a;
      }
    } else {
      var rest: seq<Byte> := seq(259, _ => 0);
      assert (a + rest)[0] == a[0] && (a + rest)[1] == a[1];
      assert AddrLen(a + rest).Some? && AddrLen(a + rest).value != |a|;
      assert SplitAddr(a + rest) != Some(a);
    }
  }

  /** What is split off says where to go: nothing of the destination is lost. */
  lemma ParsesBack(d: Dest)
    requires d.Ok() && d.Representable()
    ensures ParseAddr(SerializeAddr(d)) == Some(if d.name != [] then d.(ip := NoIP) else d)
  {
    var a := SerializeAddr(d);
    var n := |a| - 2;
    assert a[n] == PutU16(d.port)[0] && a[n + 1] == PutU16(d.port)[1];
    assert a[..|a|] == a;
    if d.name != [] { assert a[2..2 + |d.name|] == d.name; }
  }

  /** The other way round: what can be parsed is the serialisation of what it parses to. */
  lemma SerializesBack(a: seq<Byte>)
    requires ParseAddr(a).Some?
    ensures var d := ParseAddr(a).value; d.Ok() && d.Representable() && SerializeAddr(d) == a
  {
    var d, n := ParseAddr(a).value, |a| - 2;
    PutU16At(a, n);
    assert a == a[..n] + a[n..];
    if d.name != [] {
      assert a[..n] == [ATYP_DOMAIN, a[1]] + d.name;
    } else {
      assert a[..n] == [a[0]] + a[1..n];
    }
  }

  /** A domain name of no octets: it is split off, though it is never serialised. */
  predicate EmptyName(b: seq<Byte>) {
    |b| >= 4 && b[0] == 0x03 && b[1] == 0x00
  }

  ghost predicate StartsWithAddr(b: seq<Byte>) {
    exists d: Dest :: d.Ok() && d.Representable() && SerializeAddr(d) <= b
  }

  /** Exactly the serialised addresses are split off, and addresses with an empty name. */
  lemma SplitsExactly(b: seq<Byte>)
    ensures SplitAddr(b).Some? <==> StartsWithAddr(b) || EmptyName(b)
  {
    if StartsWithAddr(b) {
      var d: Dest :| d.Ok() && d.Representable() && SerializeAddr(d) <= b;
      var a := SerializeAddr(d);
      SplitsOffIff(d);
      assert b == a + b[|a|..];
    }
    if SplitAddr(b).Some? && !EmptyName(b) {
      var a := SplitAddr(b).value;
      assert a[..|a|] == a && ParseAddr(a).Some?;
      SerializesBack(a);
      assert SerializeAddr(ParseAddr(a).value) <= b;
    }
  }

  // ----- reading from a stream -----

  datatype ReadError = ShortBuffer | EndOfFile | UnexpectedEof | InvalidType

  /** A stream of octets. */
  class Stream {
    var input: seq<Byte>

    constructor (input: seq<Byte>)
      ensures this.input == input
    {
      this.input := input;
    }

    /** `io.ReadFull` into `b[lo..hi]`; `n` octets are read. */
    method ReadFull(b: array<Byte>, lo: nat, hi: nat) returns (n: nat, err: Option<ReadError>)
      requires lo <= hi <= b.Length
      modifies this, b
      ensures n == (if |old(input)| < hi - lo then |old(input)| else hi - lo)
      ensures input == old(input)[n..] && b[lo..lo + n] == old(input)[..n]
      ensures b[..lo] == old(b[..lo])
      ensures err == (if n == hi - lo then None else if n == 0 then Some(EndOfFile) else Some(UnexpectedEof))
    {
      n := if |input| < hi - lo then |input| else hi - lo;
      err := if n == hi - lo then None else if n == 0 then Some(EndOfFile) else Some(UnexpectedEof);
      forall i | 0 <= i < n { b[lo + i] := input[i]; }
      assert b[lo..lo + n] == input[..n];
      input := input[n..];
    }
  }

  /** `ReadAddr`: succeeds exactly when the stream starts with an address, and then consumes that address and no more. */
  method ReadAddr(r: Stream, b: array<Byte>) returns (n: nat, err: Option<ReadError>)
    modifies r, b
    ensures b.Length < MAX_ADDR_LEN ==> err == Some(ShortBuffer) && r.input == old(r.input)
    ensures b.Length >= MAX_ADDR_LEN ==> (err.None? <==> SplitAddr(old(r.input)).Some?)
    ensures err.None? ==> && n <= b.Length && SplitAddr(old(r.input)) == Some(b[..n])
                          && old(r.input) == b[..n] + r.input
  {
    n := 0;
    if b.Length < MAX_ADDR_LEN { return 0, Some(ShortBuffer); }
    ghost var s := r.input;
    var k;
    k, err := r.ReadFull(b, 0, 1);
    if err.Some? { return; }
    assert b[0] == b[0..1][0] == s[0];
    var last := 0;
    if b[0] == ATYP_DOMAIN {
      k, err := r.ReadFull(b, 1, 2);
      if err.Some? { return; }
      assert b[..1][0] == s[0];
      assert b[1] == b[1..2][0] == s[1];
      last := 2 + (b[1] as int) + 2;
      k, err := ReadRest(r, b, 2, last, s);
    } else if b[0] == ATYP_IPV4 {
      last := 1 + 4 + 2;
      k, err := ReadRest(r, b, 1, last, s);
    } else if b[0] == ATYP_IPV6 {
      last := 1 + 16 + 2;
      k, err := ReadRest(r, b, 1, last, s);
    } else {
      return 0, Some(InvalidType);
    }
    n := last;
  }

  /** The tail of an address of which `lo` octets have been read. */
  method ReadRest(r: Stream, b: array<Byte>, lo: nat, hi: nat, ghost s: seq<Byte>) returns (n: nat, err: Option<ReadError>)
    requires lo <= hi <= b.Length && lo <= |s| && r.input == s[lo..] && b[..lo] == s[..lo]
    modifies r, b
    ensures err.None? <==> |s| >= hi
    ensures err.None? ==> b[..hi] == s[..hi] && r.input == s[hi..]
  {
    n, err := r.ReadFull(b, lo, hi);
    if err.None? {
      assert b[..hi] == b[..lo] + b[lo..hi];
      assert s[..hi] == s[..lo] + s[lo..][..hi - lo];
    }
  }

  // ----- datagrams -----

  datatype UdpError = TooShort | Reserved | Fragmented | NoAddr

  datatype Datagram = Datagram(addr: Option<seq<Byte>>, payload: seq<Byte>, err: Option<UdpError>)

  function DecodeUDPPacket(p: seq<Byte>): Datagram {
    if |p| < 5 then Datagram(None, [], Some(TooShort))
    else if p[..2] != [0x00, 0x00] then Datagram(None, [], Some(Reserved))
    else if p[2] != 0x00 then Datagram(None, [], Some(Fragmented))
    else match SplitAddr(p[3..])
      case None => Datagram(None, p[3..], Some(NoAddr))
      case Some(a) => Datagram(Some(a), p[3 + |a|..], None)
  }

  function EncodeUDPPacket(addr: Option<seq<Byte>>, payload: seq<Byte>): Option<seq<Byte>> {
    match addr
    case None => None
    case Some(a) => Some([0x00, 0x00, 0x00] + a + payload)
  }

  /** A datagram decodes exactly if it is unfragmented, its reserved octets are zero and an address follows. */
  lemma DecodesIff(p: seq<Byte>)
    ensures DecodeUDPPacket(p).err.None? <==> |p| >= 3 && p[..3] == [0x00, 0x00, 0x00] && SplitAddr(p[3..]).Some?
  {
    if |p| >= 3 { assert p[..3] == p[..2] + [p[2]]; }
  }

  /** Round trip, for every payload, and for every address that is split off whole. */
  lemma DecodesEncoded(d: Dest, payload: seq<Byte>)
    requires d.Ok() && d.Representable()
    ensures var a := SerializeAddr(d);
            DecodeUDPPacket(EncodeUDPPacket(Some(a), payload).value) == Datagram(Some(a), payload, None)
  {
    var a := SerializeAddr(d);
    var p := [0x00, 0x00, 0x00] + a + payload;
    SplitsOffIff(d);
    assert p[3..] == a + payload;
    assert p[3 + |a|..] == payload;
  }

  /** The other way round: a datagram that decodes is the encoding of what it decodes to. */
  lemma EncodesDecoded(p: seq<Byte>)
    requires DecodeUDPPacket(p).err.None?
    ensures EncodeUDPPacket(DecodeUDPPacket(p).addr, DecodeUDPPacket(p).payload) == Some(p)
  {
    var a := SplitAddr(p[3..]).value;
    assert p == [0x00, 0x00, 0x00] + p[3..];
    assert p[3..] == a + p[3 + |a|..];
    assert [0x00, 0x00, 0x00] + a + p[3 + |a|..] == [0x00, 0x00, 0x00] + (a + p[3 + |a|..]);
  }
}
