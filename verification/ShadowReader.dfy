/** The reading side of the Shadowsocks AEAD stream, and the round trip between the two sides. */
module ShadowReader {
  import opened Bytes
  import opened Sinks
  import opened ShadowAead

  datatype ReadError = EndOfFile | UnexpectedEof | OpenFailed | ZeroChunk

  datatype Result<T> = Ok(value: T) | Err(error: ReadError)

  function ShortRead(input: seq<Byte>): ReadError {
    if input == [] then EndOfFile else UnexpectedEof
  }

  /** One frame off the wire: the nonce and the input that remain, and the payload. */
  datatype Frame = Frame(nonce: seq<Byte>, input: seq<Byte>, payload: Result<seq<Byte>>)

  function ReadPayload(a: Aead, n: seq<Byte>, input: seq<Byte>, size: nat): Frame {
    if |input| < size + a.overhead then Frame(n, [], Err(ShortRead(input)))
    else
      var body, rest := input[..size + a.overhead], input[size + a.overhead..];
      match a.open(n, body)
      case None => Frame(Next(n), rest, Err(OpenFailed))
      case Some(x) => Frame(Next(n), rest, Ok(x))
  }

  function ReadFrame(a: Aead, n: seq<Byte>, input: seq<Byte>): Frame
    requires Lawful(a)
  {
    var head := 2 + a.overhead;
    if |input| < head then Frame(n, [], Err(ShortRead(input)))
    else
      match a.open(n, input[..head])
      case None => Frame(Next(n), input[head..], Err(OpenFailed))
      case Some(h) =>
        var size := U16At(h, 0) % (PAYLOAD_MAX + 1);
        if size == 0 then Frame(Next(n), input[head..], Err(ZeroChunk))
        else ReadPayload(a, Next(n), input[head..], size)
  }

  /** `buf` is the plaintext of a frame that did not fit the caller's buffer, read up to `off`. */
  datatype ReaderState = ReaderState(nonce: seq<Byte>, input: seq<Byte>, buf: Option<seq<Byte>>, off: nat) {
    predicate Ok() { buf.Some? ==> off < |buf.value| }
    function Unread(): seq<Byte>
      requires Ok()
    {
      if buf.Some? then buf.value[off..] else []
    }
  }

  /** Copying as much of the buffered plaintext as fits. */
  function Take(st: ReaderState, size: nat): (ReaderState, Result<seq<Byte>>)
    requires st.buf.Some? && st.off <= |st.buf.value|
  {
    var left := |st.buf.value| - st.off;
    var n := if size < left then size else left;
    var out := st.buf.value[st.off..st.off + n];
    if n == left then (st.(buf := None, off := st.off + n), Ok(out)) else (st.(off := st.off + n), Ok(out))
  }

  /** One call of `Read` with a buffer of `size` octets. */
  function ReadStep(a: Aead, st: ReaderState, size: nat): (ReaderState, Result<seq<Byte>>)
    requires Lawful(a) && st.Ok()
  {
    if st.buf.Some? then Take(st, size)
    else
      var f := ReadFrame(a, st.nonce, st.input);
      var st1 := st.(nonce := f.nonce, input := f.input);
      if f.payload.Err? || size >= PAYLOAD_MAX + a.overhead then (st1, f.payload)
      else Take(st1.(buf := Some(f.payload.value), off := 0), size)
  }

  class Reader {
    const aead: Aead
    const nonce: array<Byte>
    var input: seq<Byte>
    var buf: Option<seq<Byte>>
    var off: nat

    ghost predicate Valid()
      reads this
    {
      Lawful(aead) && nonce.Length == 32 && (buf.Some? ==> off < |buf.value|)
    }

    ghost function State(): ReaderState
      requires Valid()
      reads this, nonce
    {
      ReaderState(nonce[..aead.nonceSize], input, buf, off)
    }

    constructor (aead: Aead, input: seq<Byte>)
      requires Lawful(aead)
      ensures Valid() && this.aead == aead && fresh(nonce)
      ensures State() == ReaderState(seq(aead.nonceSize, _ => 0), input, None, 0)
    {
      this.aead, this.input, buf, off := aead, input, None, 0;
      nonce := new Byte[32](_ => 0);
      new;
      assert nonce[..aead.nonceSize] == seq(aead.nonceSize, _ => 0);
    }

    /** `read`: opens one frame. */
    method ReadOne() returns (payload: Result<seq<Byte>>)
      requires Valid()
      modifies this`input, nonce
      ensures Valid()
      ensures var f := ReadFrame(aead, old(State().nonce), old(input));
              State() == old(State()).(nonce := f.nonce, input := f.input) && payload == f.payload
    {
      var head := 2 + aead.overhead;
      if |input| < head {
        payload := Err(ShortRead(input));
        input := [];
        return;
      }
      var h := aead.open(nonce[..aead.nonceSize], input[..head]);
      input := input[head..];
      Increment(nonce, aead.nonceSize);
      if h.None? { return Err(OpenFailed); }
      var size := U16At(h.value, 0) % (PAYLOAD_MAX + 1);
      if size == 0 { return Err(ZeroChunk); }
      if |input| < size + aead.overhead {
        payload := Err(ShortRead(input));
        input := [];
        return;
      }
      var x := aead.open(nonce[..aead.nonceSize], input[..size + aead.overhead]);
      input := input[size + aead.overhead..];
      Increment(nonce, aead.nonceSize);
      return if x.None? then Err(OpenFailed) else Ok(x.value);
    }

    /** `Read` fills `p` from its start. */
    method Read(p: array<Byte>) returns (r: Result<nat>)
      requires Valid() && p != nonce
      modifies this`input, this`buf, this`off, nonce, p
      ensures Valid()
      ensures var (st, out) := ReadStep(aead, old(State()), p.Length);
              && (r.Err? ==> out == Err(r.error))
              && (r.Ok? ==> r.value <= p.Length && out == Ok(p[..r.value]))
              && ReaderState(nonce[..aead.nonceSize], input, buf, off) == st
    {
      if buf.None? {
        PayloadFits(aead, State().nonce, input);
        var frame := ReadOne();
        if frame.Err? { return Err(frame.error); }
        if p.Length >= PAYLOAD_MAX + aead.overhead {
          var x := frame.value;
          forall i | 0 <= i < |x| { p[i] := x[i]; }
          assert p[..|x|] == x;
          return Ok(|x|);
        }
        buf, off := Some(frame.value), 0;
      }
      var left := |buf.value| - off;
      var n := if p.Length < left then p.Length else left;
      forall i | 0 <= i < n { p[i] := buf.value[off + i]; }
      assert p[..n] == buf.value[off..off + n];
      off := off + n;
      if off == |buf.value| { buf := None; }
      return Ok(n);
    }
  }

  lemma PayloadFits(a: Aead, n: seq<Byte>, input: seq<Byte>)
    requires Lawful(a)
    ensures var f := ReadFrame(a, n, input); f.payload.Ok? ==> 0 < |f.payload.value| <= PAYLOAD_MAX
  {
  }

  // ----- reading what was written -----

  predicate Sized(cs: seq<seq<Byte>>) {
    forall i :: 0 <= i < |cs| ==> |cs[i]| <= PAYLOAD_MAX
  }

  /** The input is the encoding of `cs` and the reader's nonce is the one it was encoded from. */
  ghost predicate InSync(a: Aead, st: ReaderState, cs: seq<seq<Byte>>) {
    st.Ok() && Sized(cs) && st.input == Encode(a, st.nonce, cs)
  }

  lemma FrameOpens(a: Aead, n: seq<Byte>, cs: seq<seq<Byte>>)
    requires Lawful(a) && Sized(cs) && cs != []
    ensures ReadFrame(a, n, Encode(a, n, cs))
            == Frame(NonceAfter(n, [cs[0]]), Encode(a, NonceAfter(n, [cs[0]]), cs[1..]),
                     if cs[0] == [] then Err(ZeroChunk) else Ok(cs[0]))
  {
    var c, n1 := cs[0], NonceAfter(n, [cs[0]]);
    var rest := Encode(a, n1, cs[1..]);
    assert cs == [c] + cs[1..];
    EncodeAppend(a, n, [c], cs[1..]);
    EncodeOne(a, n, c);
    assert After(n, 1) == After(Next(n), 0);
    assert After(n, 2) == After(Next(n), 1) == After(Next(Next(n)), 0);
    var input := FrameBytes(a, n, c) + rest;
    var head := a.seal(n, PutU16(|c|));
    if c == [] {
      assert input[..2 + a.overhead] == head && input[2 + a.overhead..] == rest;
    } else {
      OpensTwo(a, n, c, rest);
    }
  }

  /** A seal in front of other octets: where it ends and that it opens. */
  lemma SealAhead(a: Aead, n: seq<Byte>, x: seq<Byte>, rest: seq<Byte>)
    requires Lawful(a)
    ensures var input, k := a.seal(n, x) + rest, |x| + a.overhead;
            |input| >= k && a.open(n, input[..k]) == Some(x) && input[k..] == rest
  {
    var input := a.seal(n, x) + rest;
    assert input[..|x| + a.overhead] == a.seal(n, x);
  }

  lemma SizeRead(size: nat)
    requires size <= PAYLOAD_MAX
    ensures U16At(PutU16(size), 0) % (PAYLOAD_MAX + 1) == size
  {
  }

  lemma OpensTwo(a: Aead, n: seq<Byte>, c: seq<Byte>, rest: seq<Byte>)
    requires Lawful(a) && 0 < |c| <= PAYLOAD_MAX
    ensures ReadFrame(a, n, FrameBytes(a, n, c) + rest) == Frame(Next(Next(n)), rest, Ok(c))
  {
    var head, body := a.seal(n, PutU16(|c|)), a.seal(Next(n), c);
    assert (head + body) + rest == head + (body + rest);
    SealAhead(a, n, PutU16(|c|), body + rest);
    SizeRead(|c|);
    assert ReadPayload(a, Next(n), body + rest, |c|) == Frame(Next(Next(n)), rest, Ok(c)) by {
      SealAhead(a, Next(n), c, rest);
    }
  }

  /** Where a run of reads stands after `k` chunks. */
  datatype Progress = Progress(state: ReaderState, out: seq<Byte>, errors: seq<ReadError>)

  function ReadRun(a: Aead, st: ReaderState, sizes: seq<nat>): (r: Progress)
    requires Lawful(a) && st.Ok()
    ensures r.state.Ok()
  {
    if sizes == [] then Progress(st, [], [])
    else
      var before := ReadRun(a, st, sizes[..|sizes| - 1]);
      PayloadFits(a, before.state.nonce, before.state.input);
      Noted(before, ReadStep(a, before.state, sizes[|sizes| - 1]))
  }

  function CountEmpty(cs: seq<seq<Byte>>): nat {
    if cs == [] then 0 else CountEmpty(cs[..|cs| - 1]) + if cs[|cs| - 1] == [] then 1 else 0
  }

  function CountZero(es: seq<ReadError>): nat {
    if es == [] then 0 else CountZero(es[..|es| - 1]) + if es[|es| - 1] == ZeroChunk then 1 else 0
  }

  /** `k` chunks of `cs` have been opened, the others are still on the wire. */
  ghost predicate Reached(a: Aead, n: seq<Byte>, cs: seq<seq<Byte>>, p: Progress, k: nat)
    requires p.state.Ok()
  {
    && k <= |cs|
    && InSync(a, p.state, cs[k..])
    && p.state.nonce == NonceAfter(n, cs[..k])
    && p.out + p.state.Unread() == Flatten(cs[..k])
    && CountZero(p.errors) == CountEmpty(cs[..k])
    && (forall i :: 0 <= i < |p.errors| ==> p.errors[i] == ZeroChunk || p.errors[i] == EndOfFile)
    && (EndOfFile in p.errors ==> k == |cs| && p.state.buf.None?)
  }

  lemma TakeKeeps(st: ReaderState, size: nat)
    requires st.Ok() && st.buf.Some?
    ensures var (next, r) := Take(st, size);
            next.Ok() && r.Ok? && r.value + next.Unread() == st.Unread()
            && next.nonce == st.nonce && next.input == st.input
            && (size > 0 ==> r.value != [])
  {
  }

  /** A read returns as much of the plaintext at hand as fits the buffer. */
  lemma ReadFills(a: Aead, st: ReaderState, size: nat)
    requires Lawful(a) && st.Ok()
    ensures var r, f := ReadStep(a, st, size).1, ReadFrame(a, st.nonce, st.input).payload;
            if st.buf.None? && f.Err? then r == Err(f.error)
            else
              var ready := if st.buf.Some? then st.Unread() else f.value;
              r == Ok(ready[..if size < |ready| then size else |ready|])
  {
    PayloadFits(a, st.nonce, st.input);
    var f := ReadFrame(a, st.nonce, st.input).payload;
    if st.buf.Some? {
      TakenFrom(st.buf.value, st.off, size);
    } else if f.Ok? {
      TakenFrom(f.value, 0, size);
    }
  }

  lemma TakenFrom(x: seq<Byte>, off: nat, size: nat)
    requires off <= |x|
    ensures var left := |x| - off;
            var n := if size < left then size else left;
            x[off..off + n] == x[off..][..n] && x[0..] == x && x[..|x|] == x
  {
  }

  lemma NextChunk(cs: seq<seq<Byte>>, k: nat, n: seq<Byte>)
    requires k < |cs|
    ensures Flatten(cs[..k + 1]) == Flatten(cs[..k]) + cs[k]
    ensures NonceAfter(n, cs[..k + 1]) == NonceAfter(NonceAfter(n, cs[..k]), [cs[k]])
    ensures CountEmpty(cs[..k + 1]) == CountEmpty(cs[..k]) + if cs[k] == [] then 1 else 0
    ensures cs[k..][1..] == cs[k + 1..]
  {
    assert cs[..k + 1] == cs[..k] + [cs[k]];
    assert cs[..k + 1][..k] == cs[..k];
    FlattenSnoc(cs[..k], cs[k]);
    SealsAppend(n, cs[..k], [cs[k]]);
  }

  lemma ReadFrameStep(a: Aead, st: ReaderState, size: nat, cs: seq<seq<Byte>>)
    requires Lawful(a) && InSync(a, st, cs) && st.buf.None? && cs != []
    ensures var (next, r) := ReadStep(a, st, size);
            && InSync(a, next, cs[1..]) && next.nonce == NonceAfter(st.nonce, [cs[0]])
            && (cs[0] == [] ==> r == Err(ZeroChunk) && next.buf.None?)
            && (cs[0] != [] ==> r.Ok? && r.value + next.Unread() == cs[0])
  {
    FrameOpens(a, st.nonce, cs);
    var st1 := st.(nonce := NonceAfter(st.nonce, [cs[0]]), input := Encode(a, NonceAfter(st.nonce, [cs[0]]), cs[1..]));
    if cs[0] != [] && size < PAYLOAD_MAX + a.overhead {
      TakeKeeps(st1.(buf := Some(cs[0]), off := 0), size);
      assert cs[0][0..] == cs[0];
    }
  }

  function Noted(p: Progress, step: (ReaderState, Result<seq<Byte>>)): Progress {
    match step
    case (next, Ok(x)) => Progress(next, p.out + x, p.errors)
    case (next, Err(e)) => Progress(next, p.out, p.errors + [e])
  }

  lemma ReadBuffered(a: Aead, n: seq<Byte>, cs: seq<seq<Byte>>, p: Progress, k: nat, size: nat)
    requires Lawful(a) && p.state.Ok() && Reached(a, n, cs, p, k) && p.state.buf.Some?
    ensures var q := Noted(p, ReadStep(a, p.state, size));
            q.state.Ok() && Reached(a, n, cs, q, k)
  {
    TakeKeeps(p.state, size);
    var (next, r) := Take(p.state, size);
    assert p.out + r.value + next.Unread() == p.out + (r.value + next.Unread());
  }

  lemma ReadPastEnd(a: Aead, n: seq<Byte>, cs: seq<seq<Byte>>, p: Progress, size: nat)
    requires Lawful(a) && p.state.Ok() && Reached(a, n, cs, p, |cs|) && p.state.buf.None?
    ensures var q := Noted(p, ReadStep(a, p.state, size));
            q.state.Ok() && Reached(a, n, cs, q, |cs|)
  {
    assert Encode(a, p.state.nonce, []) == [];
    var es := p.errors + [EndOfFile];
    assert es[..|p.errors|] == p.errors;
  }

  /** The bookkeeping of a step that opens chunk `k`. */
  lemma OpensChunk(a: Aead, n: seq<Byte>, cs: seq<seq<Byte>>, p: Progress, k: nat, next: ReaderState, r: Result<seq<Byte>>)
    requires p.state.Ok() && Reached(a, n, cs, p, k) && p.state.buf.None? && k < |cs|
    requires InSync(a, next, cs[k + 1..]) && next.nonce == NonceAfter(n, cs[..k + 1])
    requires cs[k] == [] ==> r == Err(ZeroChunk) && next.buf.None?
    requires cs[k] != [] ==> r.Ok? && r.value + next.Unread() == cs[k]
    ensures Reached(a, n, cs, Noted(p, (next, r)), k + 1)
  {
    NextChunk(cs, k, n);
    if r.Ok? {
      assert p.out + r.value + next.Unread() == p.out + (r.value + next.Unread());
    } else {
      var es := p.errors + [ZeroChunk];
      assert es[..|p.errors|] == p.errors;
    }
  }

  lemma ReadNextFrame(a: Aead, n: seq<Byte>, cs: seq<seq<Byte>>, p: Progress, k: nat, size: nat)
    requires Lawful(a) && p.state.Ok() && Reached(a, n, cs, p, k) && p.state.buf.None? && k < |cs|
    ensures var q := Noted(p, ReadStep(a, p.state, size));
            q.state.Ok() && Reached(a, n, cs, q, k + 1)
  {
    NextChunk(cs, k, n);
    ReadFrameStep(a, p.state, size, cs[k..]);
    assert cs[k..][0] == cs[k];
    var (next, r) := ReadStep(a, p.state, size);
    OpensChunk(a, n, cs, p, k, next, r);
  }

  /**
   Every sequence of reads over an encoding: some number of chunks has been opened, in order, and everything in them
   is either delivered or waiting in the buffer; the reader's nonce is the writer's at that frame boundary.
   */
  lemma {:induction false} EveryRead(a: Aead, n: seq<Byte>, cs: seq<seq<Byte>>, sizes: seq<nat>) returns (k: nat)
    requires Lawful(a) && Sized(cs)
    ensures Reached(a, n, cs, ReadRun(a, ReaderState(n, Encode(a, n, cs), None, 0), sizes), k)
    decreases |sizes|
  {
    var st := ReaderState(n, Encode(a, n, cs), None, 0);
    if sizes == [] {
      k := 0;
      assert cs[0..] == cs && cs[..0] == [];
    } else {
      k := EveryRead(a, n, cs, sizes[..|sizes| - 1]);
      var p, size := ReadRun(a, st, sizes[..|sizes| - 1]), sizes[|sizes| - 1];
      if p.state.buf.Some? {
        ReadBuffered(a, n, cs, p, k, size);
      } else if k == |cs| {
        ReadPastEnd(a, n, cs, p, size);
      } else {
        ReadNextFrame(a, n, cs, p, k, size);
        k := k + 1;
      }
    }
  }

  // ----- whole sessions -----

  /** The chunks of a sequence of writes. */
  function AllChunks(ps: seq<seq<Byte>>): (cs: seq<seq<Byte>>)
    ensures Sized(cs)
  {
    if ps == [] then [] else Chunks(ps[0]) + AllChunks(ps[1..])
  }

  lemma {:induction false} AllChunksWhole(ps: seq<seq<Byte>>)
    ensures Flatten(AllChunks(ps)) == Flatten(ps)
  {
    if ps != [] {
      AllChunksWhole(ps[1..]);
      FlattenAppend(Chunks(ps[0]), AllChunks(ps[1..]));
    }
  }

  /** What a run of `Write` calls puts on the wire, call by call. */
  function Written(a: Aead, n: seq<Byte>, ps: seq<seq<Byte>>): seq<Byte>
    decreases |ps|
  {
    if ps == [] then [] else Encode(a, n, Chunks(ps[0])) + Written(a, NonceAfter(n, Chunks(ps[0])), ps[1..])
  }

  lemma {:induction false} WrittenIsEncoded(a: Aead, n: seq<Byte>, ps: seq<seq<Byte>>)
    ensures Written(a, n, ps) == Encode(a, n, AllChunks(ps))
    decreases |ps|
  {
    if ps != [] {
      WrittenIsEncoded(a, NonceAfter(n, Chunks(ps[0])), ps[1..]);
      EncodeAppend(a, n, Chunks(ps[0]), AllChunks(ps[1..]));
    }
  }

  /**
   Round trip: whatever is written, in calls of any sizes (empty ones included), and whatever buffers it is read into,
   what was delivered, what is buffered and what the wire still holds make up the plaintext, in order and once.
   */
  lemma RoundTrip(a: Aead, n: seq<Byte>, ps: seq<seq<Byte>>, sizes: seq<nat>) returns (rest: seq<seq<Byte>>)
    requires Lawful(a)
    ensures var p := ReadRun(a, ReaderState(n, Written(a, n, ps), None, 0), sizes);
            && InSync(a, p.state, rest)
            && p.out + p.state.Unread() + Flatten(rest) == Flatten(ps)
            && NonceAfter(p.state.nonce, rest) == NonceAfter(n, AllChunks(ps))
            && (EndOfFile in p.errors ==> p.out == Flatten(ps))
  {
    var cs := AllChunks(ps);
    WrittenIsEncoded(a, n, ps);
    AllChunksWhole(ps);
    var k := EveryRead(a, n, cs, sizes);
    rest := cs[k..];
    assert cs == cs[..k] + cs[k..];
    FlattenAppend(cs[..k], cs[k..]);
    SealsAppend(n, cs[..k], cs[k..]);
  }

  /** A connection starts with a salt in clear, from which both sides derive the cipher. */
  lemma SaltedRoundTrip(derive: seq<Byte> -> Aead, salt: seq<Byte>, n: seq<Byte>, ps: seq<seq<Byte>>, sizes: seq<nat>)
    returns (rest: seq<seq<Byte>>)
    requires Lawful(derive(salt))
    ensures var wire := salt + Written(derive(salt), n, ps);
            var a, input := derive(wire[..|salt|]), wire[|salt|..];
            && Lawful(a)
            && var p := ReadRun(a, ReaderState(n, input, None, 0), sizes);
            && InSync(a, p.state, rest)
            && p.out + p.state.Unread() + Flatten(rest) == Flatten(ps)
            && NonceAfter(p.state.nonce, rest) == NonceAfter(n, AllChunks(ps))
            && (EndOfFile in p.errors ==> p.out == Flatten(ps))
  {
    var wire := salt + Written(derive(salt), n, ps);
    assert wire[..|salt|] == salt && wire[|salt|..] == Written(derive(salt), n, ps);
    rest := RoundTrip(derive(salt), n, ps, sizes);
  }

  // ----- sessions that break off -----

  /** A run of `Write` calls over an underlying writer that may fail; the caller may go on after a failure. */
  function WriteRun(a: Aead, st: WriterState, ps: seq<seq<Byte>>): WriterState
    decreases |ps|
  {
    if ps == [] then st else WriteRun(a, WriteStep(a, st, ps[0]), ps[1..])
  }

  lemma {:induction false} WriteRunStuck(a: Aead, st: WriterState, ps: seq<seq<Byte>>)
    requires st.sink.left == 0 && st.sink.part == 0
    ensures WriteRun(a, st, ps).sink == st.sink
    decreases |ps|
  {
    if ps != [] {
      var fs := FrameList(a, st.nonce, Chunks(ps[0]));
      assert fs != [] ==> st.sink.data + fs[0][..0] == st.sink.data;
      WriteRunStuck(a, WriteStep(a, st, ps[0]), ps[1..]);
    }
  }

  lemma WriteStepArrives(a: Aead, st: WriterState, p: seq<Byte>)
    ensures var next, cs := WriteStep(a, st, p), Chunks(p);
            if |cs| <= st.sink.left then
              next == WriterState(NonceAfter(st.nonce, cs), SinkState(st.sink.data + Encode(a, st.nonce, cs), st.sink.left - |cs|, st.sink.part))
            else
              next.sink.left == 0 && next.sink.part == 0 && st.sink.data <= next.sink.data <= st.sink.data + Encode(a, st.nonce, cs)
  {
    var fs := FrameList(a, st.nonce, Chunks(p));
    FramesAreEncoded(a, st.nonce, Chunks(p));
    if |fs| <= st.sink.left { PutAllWhole(st.sink, fs); } else { PutAllFails(st.sink, fs); }
  }

  /** A run of writes leaves a beginning of the encoding on the wire, and all of it if the underlying writer holds. */
  lemma {:induction false} WritesArrive(a: Aead, st: WriterState, ps: seq<seq<Byte>>)
    ensures var last := WriteRun(a, st, ps);
            && st.sink.data <= last.sink.data <= st.sink.data + Written(a, st.nonce, ps)
            && (|AllChunks(ps)| <= st.sink.left ==>
                  last.sink.data == st.sink.data + Written(a, st.nonce, ps) && last.nonce == NonceAfter(st.nonce, AllChunks(ps)))
    decreases |ps|
  {
    if ps == [] {
      assert st.sink.data + [] == st.sink.data;
    } else {
      var cs, next := Chunks(ps[0]), WriteStep(a, st, ps[0]);
      WriteStepArrives(a, st, ps[0]);
      var d, x, y := st.sink.data, Encode(a, st.nonce, cs), Written(a, NonceAfter(st.nonce, cs), ps[1..]);
      assert (d + x) + y == d + (x + y);
      if |cs| <= st.sink.left {
        WritesArrive(a, next, ps[1..]);
        SealsAppend(st.nonce, cs, AllChunks(ps[1..]));
      } else {
        WriteRunStuck(a, next, ps[1..]);
      }
    }
  }

  lemma SealCut(a: Aead, n: seq<Byte>, x: seq<Byte>, rest: seq<Byte>, input: seq<Byte>)
    requires Lawful(a) && input <= a.seal(n, x) + rest && |input| >= |x| + a.overhead
    ensures var k := |x| + a.overhead; a.open(n, input[..k]) == Some(x) && input[k..] <= rest
  {
    assert input[..|x| + a.overhead] == a.seal(n, x);
  }

  /** A frame off a wire that may break off: the whole frame, or an error and nothing more to read. */
  lemma FrameCut(a: Aead, n: seq<Byte>, cs: seq<seq<Byte>>, input: seq<Byte>)
    requires Lawful(a) && Sized(cs) && cs != [] && input <= Encode(a, n, cs)
    ensures var f, n1 := ReadFrame(a, n, input), NonceAfter(n, [cs[0]]);
            || (f.input == [] && f.payload.Err?)
            || (f.nonce == n1 && f.input <= Encode(a, n1, cs[1..]) && f.payload == if cs[0] == [] then Err(ZeroChunk) else Ok(cs[0]))
  {
    var c, n1 := cs[0], NonceAfter(n, [cs[0]]);
    var rest := Encode(a, n1, cs[1..]);
    assert cs == [c] + cs[1..];
    EncodeAppend(a, n, [c], cs[1..]);
    EncodeOne(a, n, c);
    assert After(n, 1) == After(Next(n), 0);
    assert After(n, 2) == After(Next(n), 1) == After(Next(Next(n)), 0);
    BytesCut(a, n, c, rest, input);
  }

  lemma PayloadCut(a: Aead, n: seq<Byte>, c: seq<Byte>, rest: seq<Byte>, input: seq<Byte>)
    requires Lawful(a) && input <= a.seal(n, c) + rest
    ensures var f := ReadPayload(a, n, input, |c|);
            || (f.input == [] && f.payload.Err?)
            || (f.nonce == Next(n) && f.input <= rest && f.payload == Ok(c))
  {
    if |input| >= |c| + a.overhead { SealCut(a, n, c, rest, input); }
  }

  lemma BytesCut(a: Aead, n: seq<Byte>, c: seq<Byte>, rest: seq<Byte>, input: seq<Byte>)
    requires Lawful(a) && |c| <= PAYLOAD_MAX && input <= FrameBytes(a, n, c) + rest
    ensures var f := ReadFrame(a, n, input);
            || (f.input == [] && f.payload.Err?)
            || (c == [] && f.nonce == Next(n) && f.input <= rest && f.payload == Err(ZeroChunk))
            || (c != [] && f.nonce == Next(Next(n)) && f.input <= rest && f.payload == Ok(c))
  {
    var head, body := a.seal(n, PutU16(|c|)), if c == [] then [] else a.seal(Next(n), c);
    assert FrameBytes(a, n, c) + rest == head + (body + rest);
    if |input| >= 2 + a.overhead {
      SealCut(a, n, PutU16(|c|), body + rest, input);
      SizeRead(|c|);
      var more := input[2 + a.overhead..];
      if c == [] {
        assert body + rest == rest;
      } else {
        PayloadCut(a, Next(n), c, rest, more);
      }
    }
  }

  /** `k` chunks have been opened; what follows is a beginning of the rest, or nothing ever again. */
  ghost predicate Followed(a: Aead, n: seq<Byte>, cs: seq<seq<Byte>>, p: Progress, k: nat)
    requires p.state.Ok()
  {
    && k <= |cs| && Sized(cs) && p.out + p.state.Unread() == Flatten(cs[..k])
    && (p.state.input == [] || (p.state.nonce == NonceAfter(n, cs[..k]) && p.state.input <= Encode(a, p.state.nonce, cs[k..])))
  }

  lemma FollowsBuffered(a: Aead, n: seq<Byte>, cs: seq<seq<Byte>>, p: Progress, k: nat, size: nat)
    requires Lawful(a) && p.state.Ok() && Followed(a, n, cs, p, k) && p.state.buf.Some?
    ensures var q := Noted(p, ReadStep(a, p.state, size)); q.state.Ok() && Followed(a, n, cs, q, k)
  {
    TakeKeeps(p.state, size);
    var (next, r) := Take(p.state, size);
    assert p.out + r.value + next.Unread() == p.out + (r.value + next.Unread());
  }

  lemma FollowsNothing(a: Aead, n: seq<Byte>, cs: seq<seq<Byte>>, p: Progress, k: nat, size: nat)
    requires Lawful(a) && p.state.Ok() && Followed(a, n, cs, p, k) && p.state.buf.None? && p.state.input == []
    ensures var q := Noted(p, ReadStep(a, p.state, size)); q.state.Ok() && Followed(a, n, cs, q, k)
  {
  }

  /** What a step makes of the frame it reads. */
  lemma StepOfFrame(a: Aead, st: ReaderState, size: nat)
    requires Lawful(a) && st.Ok() && st.buf.None?
    ensures var (next, r), f := ReadStep(a, st, size), ReadFrame(a, st.nonce, st.input);
            && next.Ok() && next.nonce == f.nonce && next.input == f.input
            && (f.payload.Err? ==> r == Err(f.payload.error) && next.buf.None?)
            && (f.payload.Ok? ==> r.Ok? && r.value + next.Unread() == f.payload.value)
  {
    var f := ReadFrame(a, st.nonce, st.input);
    PayloadFits(a, st.nonce, st.input);
    if f.payload.Ok? && size < PAYLOAD_MAX + a.overhead {
      TakeKeeps(st.(nonce := f.nonce, input := f.input, buf := Some(f.payload.value), off := 0), size);
      assert f.payload.value[0..] == f.payload.value;
    }
  }

  lemma FollowsOpened(a: Aead, n: seq<Byte>, cs: seq<seq<Byte>>, p: Progress, k: nat, next: ReaderState, r: Result<seq<Byte>>)
    requires p.state.Ok() && Followed(a, n, cs, p, k) && p.state.buf.None? && k < |cs| && next.Ok()
    requires next.nonce == NonceAfter(n, cs[..k + 1]) && next.input <= Encode(a, next.nonce, cs[k + 1..])
    requires if r.Ok? then r.value + next.Unread() == cs[k] else cs[k] == [] && next.buf.None?
    ensures Followed(a, n, cs, Noted(p, (next, r)), k + 1)
  {
    assert Flatten(cs[..k + 1]) == Flatten(cs[..k]) + cs[k] by { NextChunk(cs, k, n); }
    Delivers(p.out, if r.Ok? then r.value else [], next.Unread(), cs[k], Flatten(cs[..k]));
    assert p.out + [] == p.out;
  }

  lemma Delivers(out: seq<Byte>, x: seq<Byte>, unread: seq<Byte>, chunk: seq<Byte>, before: seq<Byte>)
    requires out + [] == before && x + unread == chunk
    ensures out + x + unread == before + chunk
  {
  }

  lemma FollowsFrame(a: Aead, n: seq<Byte>, cs: seq<seq<Byte>>, p: Progress, k: nat, size: nat) returns (k': nat)
    requires Lawful(a) && p.state.Ok() && Followed(a, n, cs, p, k) && p.state.buf.None? && p.state.input != [] && k < |cs|
    ensures var q := Noted(p, ReadStep(a, p.state, size)); q.state.Ok() && Followed(a, n, cs, q, k')
  {
    FrameCut(a, p.state.nonce, cs[k..], p.state.input);
    StepOfFrame(a, p.state, size);
    NextChunk(cs, k, n);
    assert cs[k..][0] == cs[k];
    var (next, r) := ReadStep(a, p.state, size);
    if r.Err? && next.input == [] {
      k' := k;
    } else {
      k' := k + 1;
      FollowsOpened(a, n, cs, p, k, next, r);
    }
  }

  lemma {:induction false} EveryReadFollows(a: Aead, n: seq<Byte>, cs: seq<seq<Byte>>, input: seq<Byte>, sizes: seq<nat>) returns (k: nat)
    requires Lawful(a) && Sized(cs) && input <= Encode(a, n, cs)
    ensures Followed(a, n, cs, ReadRun(a, ReaderState(n, input, None, 0), sizes), k)
    decreases |sizes|
  {
    if sizes == [] {
      k := 0;
      assert cs[0..] == cs && cs[..0] == [];
    } else {
      k := EveryReadFollows(a, n, cs, input, sizes[..|sizes| - 1]);
      var p, size := ReadRun(a, ReaderState(n, input, None, 0), sizes[..|sizes| - 1]), sizes[|sizes| - 1];
      if p.state.buf.Some? {
        FollowsBuffered(a, n, cs, p, k, size);
      } else if p.state.input == [] {
        FollowsNothing(a, n, cs, p, k, size);
      } else {
        assert k < |cs| by { assert Encode(a, p.state.nonce, []) == []; }
        k := FollowsFrame(a, n, cs, p, k, size);
      }
    }
  }

  /**
   Whatever fails, and wherever the wire breaks off, the reader delivers a beginning of the plaintext: writes of any
   sizes over an underlying writer that takes only `left` frames and part of the next, read into buffers of any sizes.
   */
  lemma BrokenRoundTrip(a: Aead, n: seq<Byte>, left: nat, part: nat, ps: seq<seq<Byte>>, sizes: seq<nat>)
    requires Lawful(a)
    ensures var wire := WriteRun(a, WriterState(n, SinkState([], left, part)), ps).sink.data;
            var p := ReadRun(a, ReaderState(n, wire, None, 0), sizes);
            p.out + p.state.Unread() <= Flatten(ps)
  {
    var wire, cs := WriteRun(a, WriterState(n, SinkState([], left, part)), ps).sink.data, AllChunks(ps);
    WritesArrive(a, WriterState(n, SinkState([], left, part)), ps);
    WrittenIsEncoded(a, n, ps);
    AllChunksWhole(ps);
    assert [] + Written(a, n, ps) == Written(a, n, ps);
    var k := EveryReadFollows(a, n, cs, wire, sizes);
    FlattenAppend(cs[..k], cs[k..]);
    assert cs[..k] + cs[k..] == cs;
  }

  // ----- ReadFrom -----

  /** A frame as `ReadFrom` writes it: two seals whatever the size. */
  function ReadFromFrame(a: Aead, n: seq<Byte>, c: seq<Byte>): seq<Byte> {
    a.seal(n, PutU16(|c|)) + a.seal(Next(n), c)
  }

  /**
   A frame written by `ReadFrom` leaves both sides at the same place exactly when its chunk is not empty; after an
   empty one the reader stands in front of a seal it will try to open as a length.
   */
  lemma ReadFromInSyncIff(a: Aead, n: seq<Byte>, c: seq<Byte>, rest: seq<Byte>)
    requires Lawful(a) && |c| <= PAYLOAD_MAX && a.overhead > 0
    ensures var f := ReadFrame(a, n, ReadFromFrame(a, n, c) + rest);
            && (f.nonce == Next(Next(n)) && f.input == rest && f.payload == Ok(c) <==> c != [])
            && (c == [] ==> f.payload == Err(ZeroChunk) && f.nonce == Next(n) && f.input == a.seal(Next(n), []) + rest)
  {
    if c != [] {
      OpensTwo(a, n, c, rest);
    } else {
      var head, body := a.seal(n, PutU16(0)), a.seal(Next(n), []);
      var input := ReadFromFrame(a, n, c) + rest;
      assert input[..2 + a.overhead] == head && input[2 + a.overhead..] == body + rest;
    }
  }
}
