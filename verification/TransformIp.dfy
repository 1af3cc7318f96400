/**
 Moving an address into a target network: the network bits come from the prefix, the host bits from the address.
 The program works octet by octet with masks; the theorems read the result as one number.
 */
module TransformIp {
  import opened Arith

  type Octet = bv8

  /** An address as a number, most significant octet first. */
  function Num(bs: seq<Octet>): nat {
    if bs == [] then 0 else Num(bs[..|bs| - 1]) * 256 + bs[|bs| - 1] as int
  }

  /** Octet `i` of the result. */
  function NewOctet(net: Octet, ip: Octet, i: nat, bits: nat): Octet {
    if bits >= 8 * i + 8 then net
    else if bits <= 8 * i then ip
    else
      var maskBits := bits - 8 * i;
      var mask: Octet := 0xFF << (8 - maskBits);
      (net & mask) | (ip & !mask)
  }

  function Rewrite(ip: seq<Octet>, net: seq<Octet>, bits: nat): (r: seq<Octet>)
    requires |ip| == |net|
    ensures |r| == |ip|
  {
    seq(|ip|, i requires 0 <= i < |ip| => NewOctet(net[i], ip[i], i, bits))
  }

  /** The prefix with its host bits cleared. */
  function Masked(net: seq<Octet>, bits: nat): seq<Octet> {
    Rewrite(seq(|net|, _ => 0), net, bits)
  }

  // ----- one octet -----

  lemma High1(x: Octet)
    ensures (x & 0xFE) as int == x as int / 2 * 2
  {
  }

  lemma High2(x: Octet)
    ensures (x & 0xFC) as int == x as int / 4 * 4
  {
  }

  lemma High3(x: Octet)
    ensures (x & 0xF8) as int == x as int / 8 * 8
  {
  }

  lemma High4(x: Octet)
    ensures (x & 0xF0) as int == x as int / 16 * 16
  {
  }

  lemma High5(x: Octet)
    ensures (x & 0xE0) as int == x as int / 32 * 32
  {
  }

  lemma High6(x: Octet)
    ensures (x & 0xC0) as int == x as int / 64 * 64
  {
  }

  lemma High7(x: Octet)
    ensures (x & 0x80) as int == x as int / 128 * 128
  {
  }

  lemma Powers()
    ensures Pow2(1) == 2 && Pow2(2) == 4 && Pow2(3) == 8 && Pow2(4) == 16 && Pow2(5) == 32 && Pow2(6) == 64 && Pow2(7) == 128
  {
    assert Pow2(2) == 2 * Pow2(1) && Pow2(4) == 2 * Pow2(3) && Pow2(6) == 2 * Pow2(5);
    assert Pow2(3) == 2 * Pow2(2) && Pow2(5) == 2 * Pow2(4) && Pow2(7) == 2 * Pow2(6);
  }

  function Mask(k: nat): Octet
    requires k <= 8
  {
    0xFF << k
  }

  /** The octet above its low `k` bits. */
  lemma HighPart(x: Octet, k: nat)
    requires 1 <= k <= 7
    ensures (x & Mask(k)) as int == x as int / Pow2(k) * Pow2(k)
  {
    Powers();
    match k {
      case 1 => High1(x);
      case 2 => High2(x);
      case 3 => High3(x);
      case 4 => High4(x);
      case 5 => High5(x);
      case 6 => High6(x);
      case 7 => High7(x);
    }
  }

  /** Parts selected by a mask and by its complement do not overlap. */
  lemma OrIsSum(a: Octet, b: Octet, m: Octet)
    ensures ((a & m) | (b & !m)) as int == (a & m) as int + (b & !m) as int
    ensures (a & m) | (a & !m) == a
  {
  }

  lemma PowerDivides(k: nat)
    requires 1 <= k <= 7
    ensures Pow2(k) * (256 / Pow2(k)) == 256
  {
    Powers();
  }

  lemma Remainder(n: nat, hi: nat, lo: nat, q: nat)
    requires q >= 1 && n == hi + lo && hi == n / q * q
    ensures lo == n % q
  {
    assert n == n / q * q + n % q;
  }

  /** The low `k` bits of the octet. */
  lemma LowPart(x: Octet, k: nat)
    requires 1 <= k <= 7
    ensures (x & !Mask(k)) as int == x as int % Pow2(k)
  {
    HighPart(x, k);
    OrIsSum(x, x, Mask(k));
    Remainder(x as int, (x & Mask(k)) as int, (x & !Mask(k)) as int, Pow2(k));
  }

  lemma SpliceOctets(net: Octet, ip: Octet, k: nat)
    requires 1 <= k <= 7
    ensures ((net & Mask(k)) | (ip & !Mask(k))) as int == Splice(net as int, ip as int, Pow2(k))
  {
    var hi, lo := (net & Mask(k)) as int, (ip & !Mask(k)) as int;
    assert hi == net as int / Pow2(k) * Pow2(k) by { HighPart(net, k); }
    assert lo == ip as int % Pow2(k) by { LowPart(ip, k); }
    OrIsSum(net, ip, Mask(k));
  }

  lemma NewOctetMasks(net: Octet, ip: Octet, i: nat, bits: nat)
    requires 8 * i < bits < 8 * i + 8
    ensures NewOctet(net, ip, i, bits) == (net & Mask(8 * i + 8 - bits)) | (ip & !Mask(8 * i + 8 - bits))
  {
    assert 8 - (bits - 8 * i) == 8 * i + 8 - bits;
  }

  /** Masking with the prefix bits that reach into octet `i` splices it. */
  lemma MaskSplices(net: Octet, ip: Octet, i: nat, bits: nat)
    requires 8 * i < bits < 8 * i + 8
    ensures NewOctet(net, ip, i, bits) as int == Splice(net as int, ip as int, Pow2(8 * i + 8 - bits))
  {
    NewOctetMasks(net, ip, i, bits);
    SpliceOctets(net, ip, 8 * i + 8 - bits);
  }

  // ----- arithmetic -----

  /** `hi` above the low part, `lo` below it. */
  function Splice(hi: nat, lo: nat, p: nat): nat
    requires p >= 1
  {
    (hi / p) * p + lo % p
  }

  /** One more octet, all of it below the cut. */
  lemma SpliceLow(a: nat, b: nat, net: nat, ip: nat, p: nat)
    requires p >= 1 && net < 256 && ip < 256
    ensures Splice(a * 256 + net, b * 256 + ip, p * 256) == Splice(a, b, p) * 256 + ip
  {
    var q, r := a / p, a % p;
    assert a == q * p + r;
    assert a * 256 + net == q * (p * 256) + (r * 256 + net) by { assert (q * p) * 256 == q * (p * 256); }
    DivModUnique(a * 256 + net, p * 256, q, r * 256 + net);
    var s, t := b / p, b % p;
    assert b == s * p + t;
    assert b * 256 + ip == s * (p * 256) + (t * 256 + ip) by { assert (s * p) * 256 == s * (p * 256); }
    DivModUnique(b * 256 + ip, p * 256, s, t * 256 + ip);
    assert q * (p * 256) == (q * p) * 256;
  }

  /** One more octet with the cut inside it. */
  lemma SpliceInside(a: nat, b: nat, net: nat, ip: nat, q: nat, c: nat)
    requires q >= 1 && q * c == 256 && net < 256 && ip < 256
    ensures Splice(a * 256 + net, b * 256 + ip, q) == a * 256 + Splice(net, ip, q)
  {
    assert net == (net / q) * q + net % q && ip == (ip / q) * q + ip % q;
    assert a * 256 == (a * c) * q && b * 256 == (b * c) * q;
    assert a * 256 + net == (a * c + net / q) * q + net % q by { assert (a * c + net / q) * q == (a * c) * q + (net / q) * q; }
    DivModUnique(a * 256 + net, q, a * c + net / q, net % q);
    assert b * 256 + ip == (b * c + ip / q) * q + ip % q by { assert (b * c + ip / q) * q == (b * c) * q + (ip / q) * q; }
    DivModUnique(b * 256 + ip, q, b * c + ip / q, ip % q);
    assert (a * c + net / q) * q == a * 256 + (net / q) * q;
  }

  lemma Pow2Plus8(h: nat)
    ensures Pow2(h + 8) == Pow2(h) * 256
  {
    assert Pow2(h + 8) == 2 * Pow2(h + 7) && Pow2(h + 7) == 2 * Pow2(h + 6) && Pow2(h + 6) == 2 * Pow2(h + 5);
    assert Pow2(h + 5) == 2 * Pow2(h + 4) && Pow2(h + 4) == 2 * Pow2(h + 3) && Pow2(h + 3) == 2 * Pow2(h + 2);
    assert Pow2(h + 2) == 2 * Pow2(h + 1) && Pow2(h + 1) == 2 * Pow2(h);
  }

  function HostBits(n: nat, bits: nat): nat { if bits >= 8 * n then 0 else 8 * n - bits }

  /** Octet-wise masking is arithmetic splicing at bit `h`, for addresses of any width. */
  lemma {:induction false} RewriteIsSplice(ip: seq<Octet>, net: seq<Octet>, bits: nat)
    requires |ip| == |net|
    ensures Num(Rewrite(ip, net, bits)) == Splice(Num(net), Num(ip), Pow2(HostBits(|ip|, bits)))
  {
    if ip != [] {
      var n := |ip| - 1;
      RewriteIsSplice(ip[..n], net[..n], bits);
      var r := Rewrite(ip, net, bits);
      assert r[..n] == Rewrite(ip[..n], net[..n], bits);
      var x := NewOctet(net[n], ip[n], n, bits);
      assert Num(r) == Num(r[..n]) * 256 + x as int;
      LastOctet(Num(net[..n]), Num(ip[..n]), net[n], ip[n], n, bits);
    }
  }

  lemma LastOctet(a: nat, b: nat, net: Octet, ip: Octet, n: nat, bits: nat)
    ensures Splice(a * 256 + net as int, b * 256 + ip as int, Pow2(HostBits(n + 1, bits)))
            == Splice(a, b, Pow2(HostBits(n, bits))) * 256 + NewOctet(net, ip, n, bits) as int
  {
    var x, y, z := net as int, ip as int, NewOctet(net, ip, n, bits) as int;
    if 8 * n < bits < 8 * n + 8 { MaskSplices(net, ip, n, bits); }
    LastOctetNum(a, b, x, y, z, n, bits);
  }

  lemma LastOctetNum(a: nat, b: nat, net: nat, ip: nat, z: nat, n: nat, bits: nat)
    requires net < 256 && ip < 256
    requires z == if bits >= 8 * n + 8 then net else if bits <= 8 * n then ip else Splice(net, ip, Pow2(8 * n + 8 - bits))
    ensures Splice(a * 256 + net, b * 256 + ip, Pow2(HostBits(n + 1, bits))) == Splice(a, b, Pow2(HostBits(n, bits))) * 256 + z
  {
    var h := HostBits(n, bits);
    if bits <= 8 * n {
      Pow2Plus8(h);
      SpliceLow(a, b, net, ip, Pow2(h));
    } else {
      assert Pow2(h) == 1;
      SpliceAll(a, b);
      if bits >= 8 * n + 8 {
        SpliceAll(a * 256 + net, b * 256 + ip);
      } else {
        var k := 8 * n + 8 - bits;
        PowerDivides(k);
        SpliceInside(a, b, net, ip, Pow2(k), 256 / Pow2(k));
      }
    }
  }

  lemma SpliceAll(a: nat, b: nat)
    ensures Splice(a, b, 1) == a
  {
  }

  lemma SpliceParts(hi: nat, lo: nat, p: nat)
    requires p >= 1
    ensures Splice(hi, lo, p) / p == hi / p && Splice(hi, lo, p) % p == lo % p
  {
    DivModUnique(Splice(hi, lo, p), p, hi / p, lo % p);
  }

  lemma LastDigit(a: nat, b: nat, x: nat, y: nat)
    requires a * 256 + x == b * 256 + y && x < 256 && y < 256
    ensures a == b && x == y
  {
  }

  lemma SameOctet(x: Octet, y: Octet)
    requires x as int == y as int
    ensures x == y
  {
  }

  lemma {:induction false} NumInjective(a: seq<Octet>, b: seq<Octet>)
    requires |a| == |b| && Num(a) == Num(b)
    ensures a == b
  {
    if a != [] {
      var n := |a| - 1;
      LastDigit(Num(a[..n]), Num(b[..n]), a[n] as int, b[n] as int);
      SameOctet(a[n], b[n]);
      NumInjective(a[..n], b[..n]);
      assert a == a[..n] + [a[n]] && b == b[..n] + [b[n]];
    }
  }

  // ----- the operation -----

  datatype Moved = Moved(bytes: seq<Octet>) | VersionMismatch

  method RewriteLoop(ip: seq<Octet>, net: seq<Octet>, bits: nat) returns (out: seq<Octet>)
    requires |ip| == |net|
    ensures out == Rewrite(ip, net, bits)
  {
    var newBytes := new Octet[|ip|];
    for i := 0 to |ip|
      invariant forall k :: 0 <= k < i ==> newBytes[k] == NewOctet(net[k], ip[k], k, bits)
    {
      var bitPos := i * 8;
      if bits >= bitPos + 8 {
        newBytes[i] := net[i];
      } else if bits <= bitPos {
        newBytes[i] := ip[i];
      } else {
        var mask: Octet := 0xFF << (8 - (bits - bitPos));
        newBytes[i] := (net[i] & mask) | (ip[i] & !mask);
      }
    }
    out := newBytes[..];
  }

  /** `transformIP` on parsed addresses: 4 octets or 16, the prefix masked first. */
  method TransformIP(ip: seq<Octet>, prefix: seq<Octet>, bits: nat) returns (r: Moved)
    requires |ip| in {4, 16} && |prefix| in {4, 16} && bits <= 8 * |prefix|
    ensures r.VersionMismatch? <==> |ip| != |prefix|
    ensures r.Moved? ==> && |r.bytes| == |ip|
                         && Num(r.bytes) == Splice(Num(prefix), Num(ip), Pow2(8 * |ip| - bits))
  {
    if |ip| != |prefix| { return VersionMismatch; }
    var network := Masked(prefix, bits);
    var out := RewriteLoop(ip, network, bits);
    MaskingFirst(ip, prefix, bits);
    return Moved(out);
  }

  lemma MaskingFirst(ip: seq<Octet>, prefix: seq<Octet>, bits: nat)
    requires |ip| == |prefix| && bits <= 8 * |ip|
    ensures Num(Rewrite(ip, Masked(prefix, bits), bits)) == Splice(Num(prefix), Num(ip), Pow2(8 * |ip| - bits))
  {
    var p, zero := Pow2(8 * |ip| - bits), seq(|prefix|, _ => 0);
    RewriteIsSplice(zero, prefix, bits);
    RewriteIsSplice(ip, Masked(prefix, bits), bits);
    SpliceParts(Num(prefix), Num(zero), p);
  }

  /** The result lies in the prefix and keeps the host part. */
  lemma LandsInPrefix(ip: seq<Octet>, prefix: seq<Octet>, bits: nat)
    requires |ip| == |prefix| && bits <= 8 * |ip|
    ensures var p, r := Pow2(8 * |ip| - bits), Num(Rewrite(ip, Masked(prefix, bits), bits));
            r / p == Num(prefix) / p && r % p == Num(ip) % p
  {
    MaskingFirst(ip, prefix, bits);
    SpliceParts(Num(prefix), Num(ip), Pow2(8 * |ip| - bits));
  }

  /** An address is left alone exactly when it lies in the prefix already; in particular moving twice is moving once. */
  lemma FixedIff(ip: seq<Octet>, prefix: seq<Octet>, bits: nat)
    requires |ip| == |prefix| && bits <= 8 * |ip|
    ensures var p, out := Pow2(8 * |ip| - bits), Rewrite(ip, Masked(prefix, bits), bits);
            && (out == ip <==> Num(ip) / p == Num(prefix) / p)
            && Rewrite(out, Masked(prefix, bits), bits) == out
  {
    var p, out := Pow2(8 * |ip| - bits), Rewrite(ip, Masked(prefix, bits), bits);
    MaskingFirst(ip, prefix, bits);
    MaskingFirst(out, prefix, bits);
    SpliceFixed(Num(prefix), Num(ip), p);
    if Num(ip) / p == Num(prefix) / p { NumInjective(out, ip); }
    NumInjective(Rewrite(out, Masked(prefix, bits), bits), out);
  }

  lemma SpliceFixed(hi: nat, lo: nat, p: nat)
    requires p >= 1
    ensures Splice(hi, lo, p) == lo <==> lo / p == hi / p
    ensures Splice(hi, Splice(hi, lo, p), p) == Splice(hi, lo, p)
  {
    SpliceParts(hi, lo, p);
    assert lo == (lo / p) * p + lo % p;
  }
}
