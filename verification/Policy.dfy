/** Connection policies: 22 settings, each with its own "unset" value, merged in order of precedence. */
module Policies {
  datatype TriBool = BoolUnset | BoolFalse | BoolTrue
  datatype Sniff = SniffUnset | SniffOff | SniffAlways | SniffPolicyExists
  datatype DnsMode = DnsUnknown | PreferIPv4 | PreferIPv6 | IPv4Only | IPv6Only
  datatype Mode = ModeUnknown | ModeRaw | ModeDirect | ModeTlsRf | ModeTtlD | ModeBlock | ModeTlsAlert

  const UNSET_INT := -1
  const UNSET_STRING := "-"
  // durations are in nanoseconds
  const DEFAULT_CONNECT_TIMEOUT := 10_000_000_000
  const DEFAULT_TTLD_ATTEMPTS := 2
  const DEFAULT_TTLD_MAX_TTL := 64
  const DEFAULT_TTLD_FAKE_SLEEP := 200_000_000
  const DEFAULT_TTLD_SINGLE_TIMEOUT := 500_000_000

  datatype Policy = Policy(
    replyFirst: TriBool, sniff: Sniff, dnsMode: DnsMode, connectTimeout: int, host: string, mapTo: string,
    port: int, httpStatus: int, tls13Only: TriBool, mode: Mode,
    numRecords: int, numSegments: int, waitForAck: TriBool, oob: TriBool, oobEx: TriBool, modMinorVer: TriBool,
    sendInterval: int, fakeTtl: int, fakeSleep: int, maxTtl: int, attempts: int, singleTimeout: int)

  /** The value `mergePolicies` starts from. */
  const NO_POLICY := Policy(
    BoolUnset, SniffUnset, DnsUnknown, UNSET_INT, UNSET_STRING, UNSET_STRING,
    UNSET_INT, UNSET_INT, BoolUnset, ModeUnknown,
    0, 0, BoolUnset, BoolUnset, BoolUnset, BoolUnset,
    UNSET_INT, UNSET_INT, 0, 0, 0, UNSET_INT)

  function Or<T(==)>(unset: T, a: T, b: T): T {
    if a == unset then b else a
  }

  /** One round of the merging loop: settings still unset in `m` are taken from `p`. */
  function Fill(m: Policy, p: Policy): Policy {
    Policy(
      Or(BoolUnset, m.replyFirst, p.replyFirst), Or(SniffUnset, m.sniff, p.sniff), Or(DnsUnknown, m.dnsMode, p.dnsMode),
      Or(UNSET_INT, m.connectTimeout, p.connectTimeout), Or(UNSET_STRING, m.host, p.host), Or(UNSET_STRING, m.mapTo, p.mapTo),
      Or(UNSET_INT, m.port, p.port), Or(UNSET_INT, m.httpStatus, p.httpStatus), Or(BoolUnset, m.tls13Only, p.tls13Only),
      Or(ModeUnknown, m.mode, p.mode), Or(0, m.numRecords, p.numRecords), Or(0, m.numSegments, p.numSegments),
      Or(BoolUnset, m.waitForAck, p.waitForAck), Or(BoolUnset, m.oob, p.oob), Or(BoolUnset, m.oobEx, p.oobEx),
      Or(BoolUnset, m.modMinorVer, p.modMinorVer), Or(UNSET_INT, m.sendInterval, p.sendInterval),
      Or(UNSET_INT, m.fakeTtl, p.fakeTtl), Or(0, m.fakeSleep, p.fakeSleep), Or(0, m.maxTtl, p.maxTtl),
      Or(0, m.attempts, p.attempts), Or(UNSET_INT, m.singleTimeout, p.singleTimeout))
  }

  function NormalizeTtlD(p: Policy): Policy {
    p.(attempts := if p.attempts <= 0 then DEFAULT_TTLD_ATTEMPTS else p.attempts,
       maxTtl := if p.maxTtl <= 1 then DEFAULT_TTLD_MAX_TTL else p.maxTtl,
       fakeSleep := if p.fakeSleep <= 0 then DEFAULT_TTLD_FAKE_SLEEP else p.fakeSleep,
       singleTimeout := if p.singleTimeout <= 0 then DEFAULT_TTLD_SINGLE_TIMEOUT else p.singleTimeout)
  }

  function Normalize(p: Policy): Policy {
    var q := p.(host := if p.host == "" then UNSET_STRING else p.host,
                mapTo := if p.mapTo == "" then UNSET_STRING else p.mapTo,
                mode := if p.mode == ModeUnknown then ModeTlsRf else p.mode,
                dnsMode := if p.dnsMode == DnsUnknown then PreferIPv4 else p.dnsMode,
                connectTimeout := if p.connectTimeout <= 0 then DEFAULT_CONNECT_TIMEOUT else p.connectTimeout);
    if q.mode == ModeTtlD then NormalizeTtlD(q) else q
  }

  // ----- settings one by one -----

  datatype Setting =
    | ReplyFirst | SniffOverride | Dns | ConnectTimeout | Host | MapTo | Port | HttpStatus | Tls13Only | TheMode
    | NumRecords | NumSegments | WaitForAck | Oob | OobEx | ModMinorVer | SendInterval
    | FakeTtl | FakeSleep | MaxTtl | Attempts | SingleTimeout

  datatype Value =
    | Flag(flag: TriBool) | Sniffing(sniff: Sniff) | Resolving(dns: DnsMode) | Treating(mode: Mode)
    | Number(number: int) | Text(text: string)

  function Get(p: Policy, f: Setting): Value {
    match f
    case ReplyFirst => Flag(p.replyFirst) case SniffOverride => Sniffing(p.sniff) case Dns => Resolving(p.dnsMode)
    case ConnectTimeout => Number(p.connectTimeout) case Host => Text(p.host) case MapTo => Text(p.mapTo)
    case Port => Number(p.port) case HttpStatus => Number(p.httpStatus) case Tls13Only => Flag(p.tls13Only)
    case TheMode => Treating(p.mode) case NumRecords => Number(p.numRecords) case NumSegments => Number(p.numSegments)
    case WaitForAck => Flag(p.waitForAck) case Oob => Flag(p.oob) case OobEx => Flag(p.oobEx)
    case ModMinorVer => Flag(p.modMinorVer) case SendInterval => Number(p.sendInterval) case FakeTtl => Number(p.fakeTtl)
    case FakeSleep => Number(p.fakeSleep) case MaxTtl => Number(p.maxTtl) case Attempts => Number(p.attempts)
    case SingleTimeout => Number(p.singleTimeout)
  }

  function Unset(f: Setting): Value { Get(NO_POLICY, f) }

  /** Policy `i` is the first in the list to set `f`. */
  predicate FirstToSet(ps: seq<Policy>, f: Setting, i: nat) {
    i < |ps| && Get(ps[i], f) != Unset(f) && forall j :: 0 <= j < i ==> Get(ps[j], f) == Unset(f)
  }

  /** The value of the first policy in the list that sets `f`, or unset. */
  function FirstSet(ps: seq<Policy>, f: Setting): Value {
    if ps == [] then Unset(f)
    else if Get(ps[0], f) != Unset(f) then Get(ps[0], f)
    else FirstSet(ps[1..], f)
  }

  lemma {:induction false} FirstSetIsFirst(ps: seq<Policy>, f: Setting)
    ensures forall i: nat :: FirstToSet(ps, f, i) ==> FirstSet(ps, f) == Get(ps[i], f)
    ensures FirstSet(ps, f) == Unset(f) <==> forall i :: 0 <= i < |ps| ==> Get(ps[i], f) == Unset(f)
  {
    if ps != [] {
      FirstSetIsFirst(ps[1..], f);
      forall i: nat | FirstToSet(ps, f, i) ensures FirstSet(ps, f) == Get(ps[i], f) {
        if i > 0 { assert FirstToSet(ps[1..], f, i - 1); }
      }
      assert forall i :: 0 <= i < |ps[1..]| ==> ps[1..][i] == ps[i + 1];
    }
  }

  function Fold(ps: seq<Policy>): Policy {
    if ps == [] then NO_POLICY else Fill(ps[0], Fold(ps[1..]))
  }

  function Merge(ps: seq<Policy>): Policy { Normalize(Fold(ps)) }

  lemma GetFill(m: Policy, p: Policy, f: Setting)
    ensures Get(Fill(m, p), f) == if Get(m, f) == Unset(f) then Get(p, f) else Get(m, f)
  {
    match f {
      case _ =>
    }
  }

  lemma FillAssociative(a: Policy, b: Policy, c: Policy)
    ensures Fill(Fill(a, b), c) == Fill(a, Fill(b, c))
  {
  }

  lemma FillUnset(p: Policy)
    ensures Fill(NO_POLICY, p) == p && Fill(p, NO_POLICY) == p
  {
  }

  lemma {:induction false} FoldAppend(xs: seq<Policy>, ys: seq<Policy>)
    ensures Fold(xs + ys) == Fill(Fold(xs), Fold(ys))
  {
    if xs == [] {
      FillUnset(Fold(ys));
      assert xs + ys == ys;
    } else {
      FoldAppend(xs[1..], ys);
      assert (xs + ys)[1..] == xs[1..] + ys;
      FillAssociative(xs[0], Fold(xs[1..]), Fold(ys));
    }
  }

  lemma FoldOne(p: Policy)
    ensures Fold([p]) == p
  {
    FillUnset(p);
    assert Fold([p]) == Fill(p, Fold([]));
  }

  /** Before normalisation every setting is that of the first policy that sets it. */
  lemma {:induction false} FoldIsFirstSet(ps: seq<Policy>, f: Setting)
    ensures Get(Fold(ps), f) == FirstSet(ps, f)
  {
    if ps != [] {
      FoldIsFirstSet(ps[1..], f);
      GetFill(ps[0], Fold(ps[1..]), f);
    }
  }

  /** `mergePolicies`: one pass from the front, filling what is still unset, then normalising. */
  method MergePolicies(ps: seq<Policy>) returns (merged: Policy)
    ensures merged == Merge(ps)
  {
    merged := NO_POLICY;
    for i := 0 to |ps|
      invariant merged == Fold(ps[..i])
    {
      var p := ps[i];
      FoldAppend(ps[..i], [p]);
      FoldOne(p);
      assert ps[..i] + [p] == ps[..i + 1];
      merged := Fill(merged, p);
    }
    assert ps[..|ps|] == ps;
    merged := Normalize(merged);
  }

  // ----- nested and flat merging -----

  /** What normalisation does to one setting, given the final mode. */
  function NormalValue(f: Setting, mode: Mode, v: Value): Value {
    match (f, v)
    case (Host, Text(s)) => Text(if s == "" then UNSET_STRING else s)
    case (MapTo, Text(s)) => Text(if s == "" then UNSET_STRING else s)
    case (TheMode, Treating(m)) => Treating(if m == ModeUnknown then ModeTlsRf else m)
    case (Dns, Resolving(d)) => Resolving(if d == DnsUnknown then PreferIPv4 else d)
    case (ConnectTimeout, Number(i)) => Number(if i <= 0 then 10_000_000_000 else i)
    case (_, _) => if mode == ModeTtlD && NeedsTtlDefault(f, v) then TtlDefault(f) else v
  }

  predicate TtlSetting(f: Setting) { f in {Attempts, MaxTtl, FakeSleep, SingleTimeout} }

  predicate NeedsTtlDefault(f: Setting, v: Value) {
    TtlSetting(f) && v.Number? && (if f == MaxTtl then v.number <= 1 else v.number <= 0)
  }

  function TtlDefault(f: Setting): Value {
    match f
    case Attempts => Number(2)
    case MaxTtl => Number(64)
    case FakeSleep => Number(200_000_000)
    case _ => Number(500_000_000)
  }

  lemma GetNormalize(p: Policy, f: Setting)
    ensures Get(Normalize(p), f) == NormalValue(f, Normalize(p).mode, Get(p, f))
  {
    match f {
      case _ =>
    }
  }

  /** A merged policy, setting by setting: the first policy that sets it decides, then normalisation. */
  lemma MergeIsFirstSet(ps: seq<Policy>, f: Setting)
    ensures Get(Merge(ps), f) == NormalValue(f, Merge(ps).mode, FirstSet(ps, f))
    ensures Treating(Merge(ps).mode) == NormalValue(TheMode, ModeUnknown, FirstSet(ps, TheMode))
  {
    FoldIsFirstSet(ps, f);
    FoldIsFirstSet(ps, TheMode);
    GetNormalize(Fold(ps), f);
  }

  /**
   Merging a list whose tail was merged beforehand gives the flat result, setting by setting, unless the setting
   is one of the four TTL settings, the tail alone selects ttl-d and had the setting defaulted, nothing earlier sets
   it, and the final mode is not ttl-d.
   */
  lemma NestedMerge(xs: seq<Policy>, ys: seq<Policy>, f: Setting)
    ensures Get(Merge(xs + [Merge(ys)]), f) == Get(Merge(xs + ys), f)
            <==> !(&& TtlSetting(f) && Merge(ys).mode == ModeTtlD && NeedsTtlDefault(f, FirstSet(ys, f))
                   && FirstSet(xs, f) == Unset(f) && Merge(xs + ys).mode != ModeTtlD)
  {
    var inner := Merge(ys);
    FoldAppend(xs, ys);
    FoldAppend(xs, [inner]);
    FoldOne(inner);
    NestedSetting(Fold(xs), Fold(ys), TheMode);
    NestedSetting(Fold(xs), Fold(ys), f);
    FoldIsFirstSet(xs, f);
    FoldIsFirstSet(ys, f);
  }

  lemma NestedMode(a: Policy, b: Policy)
    ensures Normalize(Fill(a, Normalize(b))).mode == Normalize(Fill(a, b)).mode
  {
  }

  /** The settings whose default does not depend on the mode. */
  lemma NestedPlain(a: Policy, b: Policy, f: Setting)
    requires !TtlSetting(f)
    ensures Get(Normalize(Fill(a, Normalize(b))), f) == Get(Normalize(Fill(a, b)), f)
  {
    match f {
      case _ =>
    }
  }

  lemma NestedTtl(a: Policy, b: Policy, f: Setting)
    requires TtlSetting(f)
    ensures var nested, flat := Normalize(Fill(a, Normalize(b))), Normalize(Fill(a, b));
            Get(nested, f) == Get(flat, f)
            <==> !(Normalize(b).mode == ModeTtlD && NeedsTtlDefault(f, Get(b, f)) && Get(a, f) == Unset(f) && flat.mode != ModeTtlD)
  {
    NestedMode(a, b);
    GetFill(a, Normalize(b), f);
    GetFill(a, b, f);
    GetNormalize(b, f);
    GetNormalize(Fill(a, b), f);
    GetNormalize(Fill(a, Normalize(b)), f);
  }

  lemma NestedSetting(a: Policy, b: Policy, f: Setting)
    ensures var nested, flat := Normalize(Fill(a, Normalize(b))), Normalize(Fill(a, b));
            Get(nested, f) == Get(flat, f)
            <==> !(&& TtlSetting(f) && Normalize(b).mode == ModeTtlD && NeedsTtlDefault(f, Get(b, f))
                   && Get(a, f) == Unset(f) && flat.mode != ModeTtlD)
  {
    if TtlSetting(f) { NestedTtl(a, b, f); } else { NestedPlain(a, b, f); }
  }

  /** A case where nesting shows: a direct policy over a ttl-d one, with attempts left unset. */
  lemma NestingShows()
    ensures var direct, ttlD := NO_POLICY.(mode := ModeDirect), NO_POLICY.(mode := ModeTtlD);
            Merge([direct] + [Merge([ttlD])]).attempts == DEFAULT_TTLD_ATTEMPTS && Merge([direct] + [ttlD]).attempts == 0
  {
    var direct, ttlD := NO_POLICY.(mode := ModeDirect), NO_POLICY.(mode := ModeTtlD);
    FoldOne(direct);
    FoldOne(ttlD);
    FoldOne(Merge([ttlD]));
    FoldAppend([direct], [ttlD]);
    FoldAppend([direct], [Merge([ttlD])]);
  }
}
