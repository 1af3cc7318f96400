/**
 The Shadowsocks AEAD reader on wires that nobody vouches for: everything it delivers was opened, seal after seal and
 nonce after nonce, and what does not open is an error.
 */
module ShadowTamper {
  import opened Bytes
  import opened ShadowAead
  import opened ShadowReader

  // ----- the log of a reader -----

  /** One attempt to open a seal; `payload` tells payloads from lengths. */
  datatype Try = Try(cipher: seq<Byte>, plain: Option<seq<Byte>>, payload: bool)

  function Ciphers(log: seq<Try>): seq<Byte> {
    if log == [] then [] else Ciphers(log[..|log| - 1]) + log[|log| - 1].cipher
  }

  /** The payloads that opened, in order. */
  function Plain(log: seq<Try>): seq<Byte> {
    if log == [] then []
    else
      var t := log[|log| - 1];
      Plain(log[..|log| - 1]) + if t.payload && t.plain.Some? then t.plain.value else []
  }

  function Failures(log: seq<Try>): nat {
    if log == [] then 0 else Failures(log[..|log| - 1]) + if log[|log| - 1].plain.None? then 1 else 0
  }

  /** The size a length announces; 14 bits are used. */
  function SizeOf(t: Try): nat {
    if t.plain.Some? && |t.plain.value| >= 2 then U16At(t.plain.value, 0) % 16384 else 0
  }

  function Empties(log: seq<Try>): nat {
    if log == [] then 0
    else
      var t := log[|log| - 1];
      Empties(log[..|log| - 1]) + if !t.payload && t.plain.Some? && SizeOf(t) == 0 then 1 else 0
  }

  /** A length has opened whose payload is still to come. */
  predicate Expects(log: seq<Try>) {
    log != [] && !log[|log| - 1].payload && SizeOf(log[|log| - 1]) > 0
  }

  /**
   Seal after seal, each opened with the next nonce; a payload follows a length that announced it and has the announced
   size, and everything else is a length.
   */
  predicate Opened(a: Aead, n: seq<Byte>, log: seq<Try>) {
    log == []
    || (var init, t := log[..|log| - 1], log[|log| - 1];
        && Opened(a, n, init)
        && t.plain == a.open(After(n, |init|), t.cipher)
        && t.payload == Expects(init)
        && |t.cipher| == a.overhead + if t.payload then SizeOf(init[|init| - 1]) else 2)
  }

  lemma LogSnoc(a: Aead, n: seq<Byte>, log: seq<Try>, t: Try)
    requires Opened(a, n, log) && t.plain == a.open(After(n, |log|), t.cipher) && t.payload == Expects(log)
    requires |t.cipher| == a.overhead + if t.payload then SizeOf(log[|log| - 1]) else 2
    ensures Opened(a, n, log + [t]) && Ciphers(log + [t]) == Ciphers(log) + t.cipher
    ensures Plain(log + [t]) == Plain(log) + if t.payload && t.plain.Some? then t.plain.value else []
    ensures Failures(log + [t]) == Failures(log) + if t.plain.None? then 1 else 0
    ensures Empties(log + [t]) == Empties(log) + if !t.payload && t.plain.Some? && SizeOf(t) == 0 then 1 else 0
  {
    assert (log + [t])[..|log|] == log;
  }

  /** The log accounts for the wire up to the reader's position; a reader without input stays where it is. */
  predicate Accounts(a: Aead, n: seq<Byte>, wire: seq<Byte>, nonce: seq<Byte>, input: seq<Byte>, log: seq<Try>) {
    && Opened(a, n, log) && nonce == After(n, |log|) && Ciphers(log) <= wire
    && (input == [] || (Ciphers(log) + input == wire && !Expects(log)))
  }

  lemma AfterNext(n: seq<Byte>, i: nat)
    ensures Next(After(n, i)) == After(n, i + 1)
  {
    AfterAfter(n, i, 1);
    assert After(After(n, i), 1) == After(Next(After(n, i)), 0);
  }

  /** Taking `k` octets off the input. */
  lemma TakesOff(wire: seq<Byte>, done: seq<Byte>, input: seq<Byte>, k: nat)
    requires done + input == wire && k <= |input|
    ensures (done + input[..k]) + input[k..] == wire && done + input[..k] <= wire
  {
  }

  /** The log accounts for the wire exactly up to the input. */
  predicate Stands(a: Aead, n: seq<Byte>, wire: seq<Byte>, nonce: seq<Byte>, input: seq<Byte>, log: seq<Try>) {
    Opened(a, n, log) && nonce == After(n, |log|) && Ciphers(log) + input == wire
  }

  lemma StandsAccounts(a: Aead, n: seq<Byte>, wire: seq<Byte>, nonce: seq<Byte>, input: seq<Byte>, log: seq<Try>)
    requires Stands(a, n, wire, nonce, input, log)
    ensures Ciphers(log) <= wire
    ensures !Expects(log) || input == [] ==> Accounts(a, n, wire, nonce, input, log)
    ensures Accounts(a, n, wire, nonce, [], log)
  {
    assert wire[..|Ciphers(log)|] == Ciphers(log);
  }

  /** The next seal is read off the input: a payload if one is expected, a length otherwise. */
  lemma SealTried(a: Aead, n: seq<Byte>, wire: seq<Byte>, nonce: seq<Byte>, input: seq<Byte>, log: seq<Try>, k: nat) returns (t: Try)
    requires Stands(a, n, wire, nonce, input, log) && k <= |input|
    requires k == a.overhead + if Expects(log) then SizeOf(log[|log| - 1]) else 2
    ensures t == Try(input[..k], a.open(nonce, input[..k]), Expects(log))
    ensures Stands(a, n, wire, Next(nonce), input[k..], log + [t])
    ensures Plain(log + [t]) == Plain(log) + if t.payload && t.plain.Some? then t.plain.value else []
    ensures Failures(log + [t]) == Failures(log) + if t.plain.None? then 1 else 0
    ensures Empties(log + [t]) == Empties(log) + if !t.payload && t.plain.Some? && SizeOf(t) == 0 then 1 else 0
  {
    t := Try(input[..k], a.open(nonce, input[..k]), Expects(log));
    LogSnoc(a, n, log, t);
    assert Next(nonce) == After(n, |log + [t]|) by { AfterNext(n, |log|); }
    TakesOff(wire, Ciphers(log), input, k);
  }

  /** What reading one frame adds to the log, and what the caller learns of it. */
  ghost predicate Adds(log: seq<Try>, more: seq<Try>, payload: Result<seq<Byte>>) {
    && Plain(more) == Plain(log) + (if payload.Ok? then payload.value else [])
    && Failures(more) == Failures(log) + (if payload == Err(OpenFailed) then 1 else 0)
    && Empties(more) == Empties(log) + (if payload == Err(ZeroChunk) then 1 else 0)
  }

  lemma PayloadLogged(a: Aead, n: seq<Byte>, wire: seq<Byte>, nonce: seq<Byte>, input: seq<Byte>, log: seq<Try>, size: nat)
    returns (more: seq<Try>)
    requires Stands(a, n, wire, nonce, input, log) && Expects(log) && size == SizeOf(log[|log| - 1])
    ensures var f := ReadPayload(a, nonce, input, size);
            Accounts(a, n, wire, f.nonce, f.input, more) && Adds(log, more, f.payload)
  {
    if |input| < size + a.overhead {
      more := log;
      StandsAccounts(a, n, wire, nonce, input, log);
      assert Plain(log) + [] == Plain(log);
    } else {
      var t := SealTried(a, n, wire, nonce, input, log, size + a.overhead);
      more := log + [t];
      StandsAccounts(a, n, wire, Next(nonce), input[size + a.overhead..], more);
    }
  }

  /** What the reader makes of a length. */
  lemma HeadDecides(a: Aead, nonce: seq<Byte>, input: seq<Byte>, t: Try)
    requires Lawful(a) && |input| >= 2 + a.overhead
    requires t == Try(input[..2 + a.overhead], a.open(nonce, input[..2 + a.overhead]), false)
    ensures var rest := input[2 + a.overhead..];
            ReadFrame(a, nonce, input)
            == if t.plain.None? then Frame(Next(nonce), rest, Err(OpenFailed))
               else if SizeOf(t) == 0 then Frame(Next(nonce), rest, Err(ZeroChunk))
               else ReadPayload(a, Next(nonce), rest, SizeOf(t))
  {
  }

  lemma FrameLogged(a: Aead, n: seq<Byte>, wire: seq<Byte>, nonce: seq<Byte>, input: seq<Byte>, log: seq<Try>) returns (more: seq<Try>)
    requires Lawful(a) && Accounts(a, n, wire, nonce, input, log)
    ensures var f := ReadFrame(a, nonce, input);
            Accounts(a, n, wire, f.nonce, f.input, more) && Adds(log, more, f.payload)
  {
    var head := 2 + a.overhead;
    assert Plain(log) + [] == Plain(log);
    if |input| < head {
      more := log;
    } else {
      more := HeadLogged(a, n, wire, nonce, input, log);
    }
  }

  lemma HeadLogged(a: Aead, n: seq<Byte>, wire: seq<Byte>, nonce: seq<Byte>, input: seq<Byte>, log: seq<Try>) returns (more: seq<Try>)
    requires Lawful(a) && Accounts(a, n, wire, nonce, input, log) && |input| >= 2 + a.overhead
    ensures var f := ReadFrame(a, nonce, input);
            Accounts(a, n, wire, f.nonce, f.input, more) && Adds(log, more, f.payload)
  {
    var t := SealTried(a, n, wire, nonce, input, log, 2 + a.overhead);
    var mid, rest := log + [t], input[2 + a.overhead..];
    HeadDecides(a, nonce, input, t);
    assert Plain(mid) == Plain(log) by { assert Plain(log) + [] == Plain(log); }
    if t.plain.Some? && SizeOf(t) > 0 {
      more := PayloadLogged(a, n, wire, Next(nonce), rest, mid, SizeOf(t));
      AddsThrough(log, mid, more, ReadPayload(a, Next(nonce), rest, SizeOf(t)).payload);
    } else {
      more := mid;
      StandsAccounts(a, n, wire, Next(nonce), rest, mid);
    }
  }

  lemma AddsThrough(log: seq<Try>, mid: seq<Try>, more: seq<Try>, payload: Result<seq<Byte>>)
    requires Plain(mid) == Plain(log) && Failures(mid) == Failures(log) && Empties(mid) == Empties(log) && Adds(mid, more, payload)
    ensures Adds(log, more, payload)
  {
  }

  // ----- every run of reads -----

  function CountFailed(es: seq<ReadError>): nat {
    if es == [] then 0 else CountFailed(es[..|es| - 1]) + if es[|es| - 1] == OpenFailed then 1 else 0
  }

  /** Everything delivered or buffered was opened; every seal that did not open was reported, and nothing else was. */
  ghost predicate Logged(a: Aead, n: seq<Byte>, wire: seq<Byte>, p: Progress, log: seq<Try>)
    requires p.state.Ok()
  {
    && Accounts(a, n, wire, p.state.nonce, p.state.input, log)
    && p.out + p.state.Unread() == Plain(log)
    && CountFailed(p.errors) == Failures(log) && CountZero(p.errors) == Empties(log)
  }

  lemma ErrorsSnoc(es: seq<ReadError>, e: ReadError)
    ensures CountFailed(es + [e]) == CountFailed(es) + if e == OpenFailed then 1 else 0
    ensures CountZero(es + [e]) == CountZero(es) + if e == ZeroChunk then 1 else 0
  {
    assert (es + [e])[..|es|] == es;
  }

  lemma StepLogged(a: Aead, n: seq<Byte>, wire: seq<Byte>, p: Progress, log: seq<Try>, size: nat) returns (more: seq<Try>)
    requires Lawful(a) && p.state.Ok() && Logged(a, n, wire, p, log)
    ensures var q := Noted(p, ReadStep(a, p.state, size)); q.state.Ok() && Logged(a, n, wire, q, more)
  {
    var (next, r) := ReadStep(a, p.state, size);
    if p.state.buf.Some? {
      TakeKeeps(p.state, size);
      Associate(p.out, r.value, next.Unread());
      more := log;
    } else {
      more := FrameLogged(a, n, wire, p.state.nonce, p.state.input, log);
      StepOfFrame(a, p.state, size);
      if r.Ok? {
        Associate(p.out, r.value, next.Unread());
        assert p.out + [] == p.out;
      } else {
        ErrorsSnoc(p.errors, r.error);
      }
    }
  }

  /**
   For any wire and any buffers: there is a log of seals, at consecutive positions of the wire from its start and opened
   with consecutive nonces, whose payloads are what was delivered and is buffered; a seal that does not open adds nothing
   and is reported, length or payload alike.
   */
  lemma {:induction false} EveryReadIsOpened(a: Aead, n: seq<Byte>, wire: seq<Byte>, sizes: seq<nat>) returns (log: seq<Try>)
    requires Lawful(a)
    ensures Logged(a, n, wire, ReadRun(a, ReaderState(n, wire, None, 0), sizes), log)
    decreases |sizes|
  {
    if sizes == [] {
      log := [];
    } else {
      log := EveryReadIsOpened(a, n, wire, sizes[..|sizes| - 1]);
      log := StepLogged(a, n, wire, ReadRun(a, ReaderState(n, wire, None, 0), sizes[..|sizes| - 1]), log, sizes[|sizes| - 1]);
    }
  }

  // ----- tampering -----

  /** Nothing opens but what was sealed. */
  ghost predicate Authentic(a: Aead) {
    forall n, c :: a.open(n, c).Some? ==> c == a.seal(n, a.open(n, c).value)
  }

  predicate OccursAt(wire: seq<Byte>, c: seq<Byte>, j: nat) {
    j + |c| <= |wire| && wire[j..j + |c|] == c
  }

  /** The wire may be altered in any way, but holds no seals under the session's nonces other than the sender's own. */
  ghost predicate OnlyHonest(a: Aead, n: seq<Byte>, cs: seq<seq<Byte>>, wire: seq<Byte>) {
    forall i: nat, x: seq<Byte>, j: nat ::
      OccursAt(wire, a.seal(After(n, i), x), j) ==> i < |Seals(n, cs)| && x == Seals(n, cs)[i].plain
  }

  lemma OccursBehind(done: seq<Byte>, c: seq<Byte>, wire: seq<Byte>)
    requires done + c <= wire
    ensures OccursAt(wire, c, |done|)
  {
    var all := done + c;
    assert all[|done|..] == c;
    forall i | 0 <= i < |c| ensures wire[|done| + i] == c[i] { assert all[|done| + i] == c[i]; }
  }

  lemma LastOccurs(log: seq<Try>, wire: seq<Byte>)
    requires log != [] && Ciphers(log) <= wire
    ensures OccursAt(wire, log[|log| - 1].cipher, |Ciphers(log[..|log| - 1])|)
  {
    OccursBehind(Ciphers(log[..|log| - 1]), log[|log| - 1].cipher, wire);
  }

  lemma HonestSeal(a: Aead, n: seq<Byte>, cs: seq<seq<Byte>>, wire: seq<Byte>, i: nat, j: nat, c: seq<Byte>, x: seq<Byte>)
    requires Authentic(a) && OnlyHonest(a, n, cs, wire) && OccursAt(wire, c, j) && a.open(After(n, i), c) == Some(x)
    ensures i < |Seals(n, cs)| && x == Seals(n, cs)[i].plain
  {
    assert c == a.seal(After(n, i), x);
  }

  /** What opens last is the sender's seal of that number. */
  lemma OpensHonestly(a: Aead, n: seq<Byte>, cs: seq<seq<Byte>>, wire: seq<Byte>, log: seq<Try>)
    requires Authentic(a) && OnlyHonest(a, n, cs, wire) && Opened(a, n, log) && Ciphers(log) <= wire
    requires log != [] && log[|log| - 1].plain.Some?
    ensures var i := |log| - 1; i < |Seals(n, cs)| && log[i].plain.value == Seals(n, cs)[i].plain
  {
    var i := |log| - 1;
    LastOccurs(log, wire);
    HonestSeal(a, n, cs, wire, i, |Ciphers(log[..i])|, log[i].cipher, log[i].plain.value);
  }

  /** Where the sender's seals of chunk `k` stand. */
  lemma SealsOfChunk(n: seq<Byte>, cs: seq<seq<Byte>>, k: nat)
    requires k < |cs|
    ensures var m, all := |Seals(n, cs[..k])|, Seals(n, cs);
            && m < |all| && all[m].plain == PutU16(|cs[k]|)
            && |Seals(n, cs[..k + 1])| == m + FrameNonces(cs[k]) <= |all|
            && (cs[k] != [] ==> all[m + 1].plain == cs[k])
  {
    var before, nk := Seals(n, cs[..k]), NonceAfter(n, cs[..k]);
    assert cs[..k + 1] == cs[..k] + [cs[k]];
    assert cs == cs[..k + 1] + cs[k + 1..];
    SealsAppend(n, cs[..k], [cs[k]]);
    SealsAppend(n, cs[..k + 1], cs[k + 1..]);
    SealsOfOne(nk, cs[k]);
    var all := (before + FrameSeals(nk, cs[k])) + Seals(NonceAfter(n, cs[..k + 1]), cs[k + 1..]);
    assert Seals(n, cs) == all;
    assert all[|before|] == FrameSeals(nk, cs[k])[0];
    if cs[k] != [] { assert all[|before| + 1] == FrameSeals(nk, cs[k])[1]; }
  }

  lemma SealsOfOne(n: seq<Byte>, c: seq<Byte>)
    ensures Seals(n, [c]) == FrameSeals(n, c)
  {
    assert [c][1..] == [];
    assert Seals(n, [c]) == FrameSeals(n, c) + Seals(After(n, FrameNonces(c)), [c][1..]);
  }

  lemma AllSeals(n: seq<Byte>, cs: seq<seq<Byte>>)
    ensures cs[..|cs|] == cs && |Seals(n, cs[..|cs|])| == |Seals(n, cs)|
  {
    assert cs[..|cs|] == cs;
  }

  /** `k` chunks have been opened, and the length of one more if `half`. */
  ghost predicate Aligned(n: seq<Byte>, cs: seq<seq<Byte>>, log: seq<Try>, k: nat, half: bool) {
    && k <= |cs| && Plain(log) == Flatten(cs[..k]) && Expects(log) == half
    && |log| == |Seals(n, cs[..k])| + (if half then 1 else 0)
    && (half ==> k < |cs| && cs[k] != [])
  }

  lemma HeadAligns(a: Aead, n: seq<Byte>, cs: seq<seq<Byte>>, log: seq<Try>, t: Try, k: nat) returns (k': nat, half: bool)
    requires Sized(cs) && Opened(a, n, log + [t]) && Aligned(n, cs, log, k, false)
    requires |log| < |Seals(n, cs)| && t.plain == Some(Seals(n, cs)[|log|].plain)
    ensures Aligned(n, cs, log + [t], k', half)
  {
    var more := log + [t];
    assert more[..|log|] == log;
    if k == |cs| { AllSeals(n, cs); }
    SealsOfChunk(n, cs, k);
    SizeRead(|cs[k]|);
    assert SizeOf(t) == |cs[k]|;
    assert Plain(more) == Plain(log) + [];
    half := cs[k] != [];
    k' := if half then k else k + 1;
    FlattensChunk(cs, k);
  }

  lemma BodyAligns(a: Aead, n: seq<Byte>, cs: seq<seq<Byte>>, log: seq<Try>, t: Try, k: nat)
    requires Opened(a, n, log + [t]) && Aligned(n, cs, log, k, true)
    requires |log| < |Seals(n, cs)| && t.plain == Some(Seals(n, cs)[|log|].plain)
    ensures Aligned(n, cs, log + [t], k + 1, false)
  {
    var more := log + [t];
    assert more[..|log|] == log;
    SealsOfChunk(n, cs, k);
    assert Plain(more) == Plain(log) + cs[k];
    FlattensChunk(cs, k);
  }

  lemma FlattensChunk(cs: seq<seq<Byte>>, k: nat)
    requires k < |cs|
    ensures Flatten(cs[..k + 1]) == Flatten(cs[..k]) + cs[k]
  {
    assert cs[..k + 1] == cs[..k] + [cs[k]];
    FlattenSnoc(cs[..k], cs[k]);
  }

  lemma {:induction false} HonestLog(a: Aead, n: seq<Byte>, cs: seq<seq<Byte>>, wire: seq<Byte>, log: seq<Try>) returns (k: nat, half: bool)
    requires Sized(cs) && Authentic(a) && OnlyHonest(a, n, cs, wire)
    requires Opened(a, n, log) && Ciphers(log) <= wire && Failures(log) == 0
    ensures Aligned(n, cs, log, k, half)
    decreases |log|
  {
    if log == [] {
      k, half := 0, false;
      assert cs[..0] == [];
    } else {
      var init, t := log[..|log| - 1], log[|log| - 1];
      assert init + [t] == log;
      k, half := HonestLog(a, n, cs, wire, init);
      OpensHonestly(a, n, cs, wire, log);
      if half {
        BodyAligns(a, n, cs, init, t, k);
        k, half := k + 1, false;
      } else {
        k, half := HeadAligns(a, n, cs, init, t, k);
      }
    }
  }

  lemma {:induction false} NoFailures(es: seq<ReadError>)
    requires OpenFailed !in es
    ensures CountFailed(es) == 0
  {
    if es != [] { NoFailures(es[..|es| - 1]); }
  }

  /**
   However a wire is altered, a reader that has seen no failure has delivered untampered chunks, from the first on and
   without a gap, provided that the cipher is authentic and the wire holds no foreign seals.
   */
  lemma TamperedWire(a: Aead, n: seq<Byte>, cs: seq<seq<Byte>>, wire: seq<Byte>, sizes: seq<nat>) returns (k: nat)
    requires Lawful(a) && Authentic(a) && Sized(cs) && OnlyHonest(a, n, cs, wire)
    requires OpenFailed !in ReadRun(a, ReaderState(n, wire, None, 0), sizes).errors
    ensures var p := ReadRun(a, ReaderState(n, wire, None, 0), sizes);
            k <= |cs| && p.out + p.state.Unread() == Flatten(cs[..k])
  {
    var log := EveryReadIsOpened(a, n, wire, sizes);
    NoFailures(ReadRun(a, ReaderState(n, wire, None, 0), sizes).errors);
    var half;
    k, half := HonestLog(a, n, cs, wire, log);
  }

  /**
   The end of the stream is reported as a clean one exactly when nothing is left of it, and when it breaks off right
   behind a length that announces a payload.
   */
  lemma CleanEndIff(a: Aead, n: seq<Byte>, input: seq<Byte>)
    requires Lawful(a)
    ensures ReadFrame(a, n, input).payload == Err(EndOfFile)
            <==> input == [] || (|input| == 2 + a.overhead && SizeOf(Try(input, a.open(n, input), false)) > 0)
    ensures ReadFrame(a, n, input).payload == Err(UnexpectedEof)
            <==> || 0 < |input| < 2 + a.overhead
                 || (&& |input| > 2 + a.overhead
                     && var head := input[..2 + a.overhead];
                        var size := SizeOf(Try(head, a.open(n, head), false));
                        size > 0 && |input| < 2 + a.overhead + size + a.overhead)
  {
    if |input| == 2 + a.overhead { assert input[..2 + a.overhead] == input; }
    if |input| >= 2 + a.overhead {
      var head := input[..2 + a.overhead];
      HeadDecides(a, n, input, Try(head, a.open(n, head), false));
    }
  }

  /**
   The failure must end the session: the reader itself goes on.  A payload that was altered is reported, and the next
   read delivers the chunk behind it.
   */
  lemma HoleAfterFailure(a: Aead, n: seq<Byte>, lost: seq<Byte>, next: seq<Byte>, altered: seq<Byte>)
    requires Lawful(a) && 0 < |lost| <= PAYLOAD_MAX && 0 < |next| <= PAYLOAD_MAX
    requires |altered| == |lost| + a.overhead && a.open(Next(n), altered).None?
    ensures var wire := a.seal(n, PutU16(|lost|)) + (altered + FrameBytes(a, Next(Next(n)), next));
            var size := PAYLOAD_MAX + a.overhead;
            var p := ReadRun(a, ReaderState(n, wire, None, 0), [size, size]);
            p.out == next && p.errors == [OpenFailed]
  {
    var n2, size := Next(Next(n)), PAYLOAD_MAX + a.overhead;
    var rest := FrameBytes(a, n2, next);
    var wire := a.seal(n, PutU16(|lost|)) + (altered + rest);
    var st := ReaderState(n, wire, None, 0);
    assert ReadFrame(a, n, wire) == Frame(n2, rest, Err(OpenFailed)) by {
      SealAhead(a, n, PutU16(|lost|), altered + rest);
      SizeRead(|lost|);
      assert (altered + rest)[..|altered|] == altered && (altered + rest)[|altered|..] == rest;
    }
    assert ReadFrame(a, n2, rest) == Frame(Next(Next(n2)), [], Ok(next)) by {
      assert rest + [] == rest;
      OpensTwo(a, n2, next, []);
    }
    var none: seq<nat>, one: seq<nat>, two: seq<nat> := [], [size], [size, size];
    assert two[..1] == one && one[..0] == none;
    var first := Progress(ReaderState(n2, rest, None, 0), [], [OpenFailed]);
    assert ReadRun(a, st, one) == first by {
      assert ReadRun(a, st, none) == Progress(st, [], []);
      assert ReadRun(a, st, one) == Noted(Progress(st, [], []), ReadStep(a, st, size));
      assert [] + [OpenFailed] == [OpenFailed];
    }
    assert ReadRun(a, st, two) == Noted(first, ReadStep(a, first.state, size));
    assert [] + next == next;
  }
}
