/**
 The Shadowsocks AEAD stream: a writer that cuts plaintext into sealed frames and a reader that opens them into
 buffers of any size, both counting nonces in little-endian order.

 The cipher is a pair of functions of which only `Lawful` is assumed.  The wire is the list of seals that
 produced it, so that nonces can be spoken about.
 */
module ShadowAead {
  import opened Bytes
  import opened Sinks

  const PAYLOAD_MAX := 0x3FFF
  const BUF_SIZE := 17 * 1024

  datatype Aead = Aead(
    nonceSize: nat,
    overhead: nat,
    seal: (seq<Byte>, seq<Byte>) -> seq<Byte>,
    open: (seq<Byte>, seq<Byte>) -> Option<seq<Byte>>)

  /** What is used of an AEAD cipher. */
  ghost predicate Lawful(a: Aead) {
    && a.nonceSize <= 32
    && (forall n, x :: |a.seal(n, x)| == |x| + a.overhead && a.open(n, a.seal(n, x)) == Some(x))
    && (forall n, c :: a.open(n, c).Some? ==> |a.open(n, c).value| + a.overhead == |c|)
  }

  // ----- nonces -----

  function Pow256(k: nat): (r: nat)
    ensures r >= 1
  {
    if k == 0 then 1 else 256 * Pow256(k - 1)
  }

  /** The number a nonce stands for, least significant octet first. */
  function Little(n: seq<Byte>): (r: nat)
    ensures r < Pow256(|n|)
  {
    if n == [] then 0 else n[0] + 256 * Little(n[1..])
  }

  function Next(n: seq<Byte>): (r: seq<Byte>)
    ensures |r| == |n|
  {
    if n == [] then [] else if n[0] < 255 then [n[0] + 1] + n[1..] else [0] + Next(n[1..])
  }

  function After(n: seq<Byte>, i: nat): (r: seq<Byte>)
    ensures |r| == |n|
    decreases i
  {
    if i == 0 then n else After(Next(n), i - 1)
  }

  /** Where the carry ends. */
  lemma {:induction false} NextStops(n: seq<Byte>, i: nat)
    requires i < |n| && n[i] < 255 && forall j :: 0 <= j < i ==> n[j] == 255
    ensures forall j :: 0 <= j < |n| ==> Next(n)[j] == if j < i then 0 else if j == i then n[i] + 1 else n[j]
  {
    if i > 0 {
      NextStops(n[1..], i - 1);
      assert forall j :: 1 <= j < |n| ==> Next(n)[j] == Next(n[1..])[j - 1];
    }
  }

  lemma {:induction false} NextWraps(n: seq<Byte>)
    requires forall j :: 0 <= j < |n| ==> n[j] == 255
    ensures forall j :: 0 <= j < |n| ==> Next(n)[j] == 0
  {
    if n != [] {
      NextWraps(n[1..]);
      assert forall j :: 1 <= j < |n| ==> Next(n)[j] == Next(n[1..])[j - 1];
    }
  }

  /** `increment`: carries through the octets in place. */
  method Increment(b: array<Byte>, k: nat)
    requires k <= b.Length
    modifies b
    ensures b[..k] == Next(old(b[..k])) && b[k..] == old(b[k..])
  {
    ghost var was := b[..k];
    for i := 0 to k
      invariant forall j :: 0 <= j < i ==> was[j] == 255 && b[j] == 0
      invariant forall j :: i <= j < b.Length ==> b[j] == old(b[j])
    {
      assert was[i] == b[i];
      b[i] := if b[i] == 255 then 0 else b[i] + 1;
      if b[i] != 0 {
        NextStops(was, i);
        assert forall j :: 0 <= j < k ==> old(b[j]) == was[j];
        return;
      }
    }
    NextWraps(was);
  }

  lemma {:induction false} NextAddsOne(n: seq<Byte>)
    ensures Little(Next(n)) == if Little(n) + 1 == Pow256(|n|) then 0 else Little(n) + 1
  {
    if n != [] {
      NextAddsOne(n[1..]);
      assert Next(n)[1..] == if n[0] < 255 then n[1..] else Next(n[1..]);
    }
  }

  /** Addition modulo 256^k, for as long as the counter does not pass its starting point. */
  lemma {:induction false} AfterAdds(n: seq<Byte>, i: nat)
    requires i < Pow256(|n|)
    ensures Little(After(n, i)) == if Little(n) + i < Pow256(|n|) then Little(n) + i else Little(n) + i - Pow256(|n|)
    decreases i
  {
    if i > 0 {
      NextAddsOne(n);
      AfterAdds(Next(n), i - 1);
    }
  }

  lemma {:induction false} AfterAfter(n: seq<Byte>, i: nat, j: nat)
    ensures After(After(n, i), j) == After(n, i + j)
    decreases i
  {
    if i > 0 { AfterAfter(Next(n), i - 1, j); }
  }

  // ----- what is sealed -----

  datatype Seal = Seal(nonce: seq<Byte>, plain: seq<Byte>)

  /** The seals of one frame: the length and, unless it is zero, the payload. */
  function FrameSeals(n: seq<Byte>, chunk: seq<Byte>): (r: seq<Seal>)
    ensures 1 <= |r| <= 2
  {
    if chunk == [] then [Seal(n, PutU16(0))] else [Seal(n, PutU16(|chunk|)), Seal(Next(n), chunk)]
  }

  function FrameNonces(chunk: seq<Byte>): nat { if chunk == [] then 1 else 2 }

  function Seals(n: seq<Byte>, chunks: seq<seq<Byte>>): seq<Seal>
    decreases |chunks|
  {
    if chunks == [] then [] else FrameSeals(n, chunks[0]) + Seals(After(n, FrameNonces(chunks[0])), chunks[1..])
  }

  function NonceAfter(n: seq<Byte>, chunks: seq<seq<Byte>>): (r: seq<Byte>)
    ensures |r| == |n|
    decreases |chunks|
  {
    if chunks == [] then n else NonceAfter(After(n, FrameNonces(chunks[0])), chunks[1..])
  }

  function Sealed(a: Aead, seals: seq<Seal>): seq<Byte> {
    if seals == [] then [] else a.seal(seals[0].nonce, seals[0].plain) + Sealed(a, seals[1..])
  }

  /** The wire image of a list of chunks, from nonce `n` on. */
  function Encode(a: Aead, n: seq<Byte>, chunks: seq<seq<Byte>>): seq<Byte> {
    Sealed(a, Seals(n, chunks))
  }

  lemma {:induction false} SealedAppend(a: Aead, x: seq<Seal>, y: seq<Seal>)
    ensures Sealed(a, x + y) == Sealed(a, x) + Sealed(a, y)
  {
    if x == [] {
      assert x + y == y;
    } else {
      SealedAppend(a, x[1..], y);
      assert (x + y)[1..] == x[1..] + y;
    }
  }

  lemma {:induction false} SealsAppend(n: seq<Byte>, cs: seq<seq<Byte>>, ds: seq<seq<Byte>>)
    ensures Seals(n, cs + ds) == Seals(n, cs) + Seals(NonceAfter(n, cs), ds)
    ensures NonceAfter(n, cs + ds) == NonceAfter(NonceAfter(n, cs), ds)
    decreases |cs|
  {
    if cs == [] {
      assert cs + ds == ds;
    } else {
      var after := After(n, FrameNonces(cs[0]));
      SealsAppend(after, cs[1..], ds);
      assert (cs + ds)[0] == cs[0] && (cs + ds)[1..] == cs[1..] + ds;
      var x, y, z := FrameSeals(n, cs[0]), Seals(after, cs[1..]), Seals(NonceAfter(after, cs[1..]), ds);
      assert x + (y + z) == (x + y) + z;
    }
  }

  lemma EncodeAppend(a: Aead, n: seq<Byte>, cs: seq<seq<Byte>>, ds: seq<seq<Byte>>)
    ensures Encode(a, n, cs + ds) == Encode(a, n, cs) + Encode(a, NonceAfter(n, cs), ds)
    ensures NonceAfter(n, cs + ds) == NonceAfter(NonceAfter(n, cs), ds)
  {
    SealsAppend(n, cs, ds);
    SealedAppend(a, Seals(n, cs), Seals(NonceAfter(n, cs), ds));
  }

  lemma EncodeOne(a: Aead, n: seq<Byte>, c: seq<Byte>)
    ensures Encode(a, n, [c]) == FrameBytes(a, n, c)
    ensures NonceAfter(n, [c]) == After(n, FrameNonces(c))
  {
    var fs := FrameSeals(n, c);
    assert Seals(n, [c]) == fs + Seals(After(n, FrameNonces(c)), [c][1..]) == fs;
    assert NonceAfter(n, [c]) == NonceAfter(After(n, FrameNonces(c)), [c][1..]);
    var last := fs[|fs| - 1..];
    assert Sealed(a, last) == a.seal(last[0].nonce, last[0].plain) + Sealed(a, []);
    assert Sealed(a, fs) == a.seal(fs[0].nonce, fs[0].plain) + Sealed(a, fs[1..]);
    if c != [] { assert fs[1..] == last; }
  }

  function FrameBytes(a: Aead, n: seq<Byte>, c: seq<Byte>): seq<Byte> {
    if c == [] then a.seal(n, PutU16(0)) else a.seal(n, PutU16(|c|)) + a.seal(Next(n), c)
  }

  lemma ShiftedNonces(n: seq<Byte>, k: nat, here: seq<Seal>, rest: seq<Seal>)
    requires |here| == k && forall i :: 0 <= i < k ==> here[i].nonce == After(n, i)
    requires forall i :: 0 <= i < |rest| ==> rest[i].nonce == After(After(n, k), i)
    ensures forall i :: 0 <= i < |here + rest| ==> (here + rest)[i].nonce == After(n, i)
  {
    forall i | 0 <= i < |here + rest| ensures (here + rest)[i].nonce == After(n, i) {
      if i >= k { AfterAfter(n, k, i - k); }
    }
  }

  /** The `i`-th seal of a run uses the `i`-th nonce. */
  lemma {:induction false} SealNonces(n: seq<Byte>, chunks: seq<seq<Byte>>)
    ensures forall i :: 0 <= i < |Seals(n, chunks)| ==> Seals(n, chunks)[i].nonce == After(n, i)
    ensures NonceAfter(n, chunks) == After(n, |Seals(n, chunks)|)
    decreases |chunks|
  {
    if chunks != [] {
      var k := FrameNonces(chunks[0]);
      var here, rest := FrameSeals(n, chunks[0]), Seals(After(n, k), chunks[1..]);
      SealNonces(After(n, k), chunks[1..]);
      assert After(n, 1) == After(Next(n), 0) == Next(n);
      ShiftedNonces(n, k, here, rest);
      AfterAfter(n, k, |rest|);
    }
  }

  /** No nonce is used twice in a run of at most 256^k seals. */
  lemma NoncesNeverRepeat(n: seq<Byte>, chunks: seq<seq<Byte>>)
    requires |Seals(n, chunks)| <= Pow256(|n|)
    ensures forall i, j :: 0 <= i < j < |Seals(n, chunks)| ==> Seals(n, chunks)[i].nonce != Seals(n, chunks)[j].nonce
  {
    SealNonces(n, chunks);
    forall i, j | 0 <= i < j < |Seals(n, chunks)| ensures Seals(n, chunks)[i].nonce != Seals(n, chunks)[j].nonce {
      AfterAdds(n, i);
      AfterAdds(n, j);
    }
  }

  // ----- the writer -----

  /** The chunks of one `Write`; an empty write is one empty chunk. */
  function Chunks(p: seq<Byte>): (cs: seq<seq<Byte>>)
    ensures forall i :: 0 <= i < |cs| ==> |cs[i]| <= PAYLOAD_MAX
    ensures forall i :: 0 <= i < |cs| - 1 ==> |cs[i]| == PAYLOAD_MAX
    ensures cs != [] && Flatten(cs) == p
    decreases |p|
  {
    if |p| <= PAYLOAD_MAX then
      assert Flatten([p]) == p + Flatten<Byte>([]);
      [p]
    else
      var rest := Chunks(p[PAYLOAD_MAX..]);
      assert p == p[..PAYLOAD_MAX] + p[PAYLOAD_MAX..];
      [p[..PAYLOAD_MAX]] + rest
  }

  /** The frames of a list of chunks, from nonce `n` on, one write each. */
  function FrameList(a: Aead, n: seq<Byte>, cs: seq<seq<Byte>>): seq<seq<Byte>>
    decreases |cs|
  {
    if cs == [] then [] else [FrameBytes(a, n, cs[0])] + FrameList(a, After(n, FrameNonces(cs[0])), cs[1..])
  }

  lemma {:induction false} FramesAreEncoded(a: Aead, n: seq<Byte>, cs: seq<seq<Byte>>)
    ensures Flatten(FrameList(a, n, cs)) == Encode(a, n, cs) && |FrameList(a, n, cs)| == |cs|
    decreases |cs|
  {
    if cs != [] {
      var after := After(n, FrameNonces(cs[0]));
      FramesAreEncoded(a, after, cs[1..]);
      EncodeOne(a, n, cs[0]);
      EncodeAppend(a, n, [cs[0]], cs[1..]);
      assert [cs[0]] + cs[1..] == cs;
      assert FrameList(a, n, cs)[1..] == FrameList(a, after, cs[1..]);
    }
  }

  lemma FrameSize(a: Aead, n: seq<Byte>, c: seq<Byte>)
    requires Lawful(a)
    ensures |FrameBytes(a, n, c)| == if c == [] then 2 + a.overhead else 2 + a.overhead + |c| + a.overhead
  {
  }

  /** Every frame fits the buffer exactly when the tag has at most 511 octets; the ciphers in use have 16. */
  lemma FramesFitIff(a: Aead)
    requires Lawful(a)
    ensures (forall n, c :: |c| <= PAYLOAD_MAX ==> |FrameBytes(a, n, c)| <= BUF_SIZE) <==> a.overhead <= 511
  {
    forall n, c | |c| <= PAYLOAD_MAX && a.overhead <= 511 ensures |FrameBytes(a, n, c)| <= BUF_SIZE { FrameSize(a, n, c); }
    var largest: seq<Byte> := seq(PAYLOAD_MAX, _ => 0);
    FrameSize(a, [], largest);
  }

  datatype WriterState = WriterState(nonce: seq<Byte>, sink: SinkState)

  /** One `Write`: frames go out up to the first failure; the nonce has advanced over every frame that was tried. */
  function WriteStep(a: Aead, st: WriterState, p: seq<Byte>): WriterState {
    WriterState(NonceAfter(st.nonce, Tried(st.sink.left, Chunks(p))), PutAll(st.sink, FrameList(a, st.nonce, Chunks(p))))
  }

  class Writer {
    const aead: Aead
    const nonce: array<Byte>
    const sink: Sink

    ghost predicate Valid()
      reads this
    {
      Lawful(aead) && nonce.Length == 32
    }

    ghost function Nonce(): seq<Byte>
      requires Valid()
      reads this, nonce
    {
      nonce[..aead.nonceSize]
    }

    ghost function State(): WriterState
      requires Valid()
      reads this, nonce, sink
    {
      WriterState(Nonce(), sink.State())
    }

    constructor (aead: Aead, sink: Sink)
      requires Lawful(aead)
      ensures Valid() && this.aead == aead && this.sink == sink && fresh(nonce)
      ensures Nonce() == seq(aead.nonceSize, _ => 0)
    {
      this.aead, this.sink := aead, sink;
      nonce := new Byte[32](_ => 0);
      new;
      assert nonce[..aead.nonceSize] == seq(aead.nonceSize, _ => 0);
    }

    /** One frame: the sealed length and, for a non-empty chunk, the sealed payload. */
    method WriteFrame(chunk: seq<Byte>) returns (ok: bool)
      requires Valid() && |chunk| <= PAYLOAD_MAX
      modifies sink, nonce
      ensures sink.State() == Put(old(sink.State()), FrameBytes(aead, old(Nonce()), chunk))
      ensures Nonce() == After(old(Nonce()), FrameNonces(chunk))
      ensures ok <==> old(sink.left) > 0
      ensures aead.overhead <= 511 ==> |sink.data| - |old(sink.data)| <= BUF_SIZE
    {
      FrameSize(aead, Nonce(), chunk);
      var buf := aead.seal(nonce[..aead.nonceSize], PutU16(|chunk|));
      Increment(nonce, aead.nonceSize);
      assert After(old(Nonce()), 1) == After(Next(old(Nonce())), 0);
      if |chunk| > 0 {
        buf := buf + aead.seal(nonce[..aead.nonceSize], chunk);
        Increment(nonce, aead.nonceSize);
        assert After(old(Nonce()), 2) == After(Next(Next(old(Nonce()))), 0);
      }
      ok := sink.Write(buf);
    }

    /** `Write` is one step; it reports the octets of every chunk it tried, the failing one included. */
    method Write(p: seq<Byte>) returns (n: nat, ok: bool)
      requires Valid()
      modifies sink, nonce
      ensures State() == WriteStep(aead, old(State()), p)
      ensures ok <==> |Chunks(p)| <= old(sink.left)
      ensures n == |Flatten(Tried(old(sink.left), Chunks(p)))|
    {
      n := 0;
      if |p| == 0 {
        OneStep(aead, State(), []);
        FlattenOne<Byte>([]);
        assert Chunks(p) == [[]];
        ok := WriteFrame([]);
      } else {
        n, ok := WriteChunks(p);
      }
    }

    /** The next chunk of a write that stands at `n`. */
    method WriteNext(p: seq<Byte>, n: nat) returns (next: nat, ok: bool)
      requires Valid() && n < |p|
      modifies sink, nonce
      ensures n < next <= |p| && (ok <==> old(sink.left) > 0)
      ensures ok ==> sink.left == old(sink.left) - 1
      ensures |ChunksFrom(p, n)| == 1 + |ChunksFrom(p, next)|
      ensures Remaining(aead, State(), if ok then ChunksFrom(p, next) else [], next)
              == old(Remaining(aead, State(), ChunksFrom(p, n), n))
    {
      var nr := PAYLOAD_MAX;
      if n + nr > |p| { nr := |p| - n; }
      next := n + nr;
      ChunkStep(p, n, nr);
      RemainingStep(aead, State(), p[n..next], ChunksFrom(p, next), n);
      ok := WriteFrame(p[n..next]);
    }

    method WriteChunks(p: seq<Byte>) returns (n: nat, ok: bool)
      requires Valid() && |p| > 0
      modifies sink, nonce
      ensures State() == WriteStep(aead, old(State()), p)
      ensures ok <==> |Chunks(p)| <= old(sink.left)
      ensures n == |Flatten(Tried(old(sink.left), Chunks(p)))|
    {
      n, ok := 0, true;
      assert ChunksFrom(p, 0) == Chunks(p) by { assert p[0..] == p; }
      ghost var goal := Remaining(aead, State(), Chunks(p), 0);
      while n < |p| && ok
        invariant n <= |p|
        invariant Remaining(aead, State(), if ok then ChunksFrom(p, n) else [], n) == goal
        invariant ok ==> sink.left - |ChunksFrom(p, n)| == old(sink.left) - |Chunks(p)|
        invariant !ok ==> old(sink.left) < |Chunks(p)|
      {
        n, ok := WriteNext(p, n);
      }
      RemainingNone(aead, State(), n);
    }
  }

  /** Where a write ends that stands at `st` with the chunks `cs` still to go and `n` octets behind it. */
  ghost function Remaining(a: Aead, st: WriterState, cs: seq<seq<Byte>>, n: nat): (WriterState, nat) {
    var tried := Tried(st.sink.left, cs);
    (WriterState(NonceAfter(st.nonce, tried), PutAll(st.sink, FrameList(a, st.nonce, cs))), n + |Flatten(tried)|)
  }

  lemma RemainingNone(a: Aead, st: WriterState, n: nat)
    ensures Remaining(a, st, [], n) == (st, n)
  {
  }

  lemma RemainingStep(a: Aead, st: WriterState, c: seq<Byte>, cs: seq<seq<Byte>>, n: nat)
    ensures var next := WriterState(After(st.nonce, FrameNonces(c)), Put(st.sink, FrameBytes(a, st.nonce, c)));
            Remaining(a, st, [c] + cs, n) == Remaining(a, next, if st.sink.left > 0 then cs else [], n + |c|)
  {
    var next := After(st.nonce, FrameNonces(c));
    TriedCons(st.sink.left, c, cs);
    var later := if st.sink.left == 0 then [] else Tried(st.sink.left - 1, cs);
    SealsAppend(st.nonce, [c], later);
    EncodeOne(a, st.nonce, c);
    FlattenAppend([c], later);
    FlattenOne(c);
    assert ([c] + cs)[1..] == cs;
    var first, rest := FrameBytes(a, st.nonce, c), FrameList(a, next, cs);
    assert FrameList(a, st.nonce, [c] + cs) == [first] + rest;
    assert ([first] + rest)[1..] == rest;
  }

  lemma OneStep(a: Aead, st: WriterState, c: seq<Byte>)
    ensures Tried(st.sink.left, [c]) == [c] && NonceAfter(st.nonce, [c]) == After(st.nonce, FrameNonces(c))
    ensures PutAll(st.sink, FrameList(a, st.nonce, [c])) == Put(st.sink, FrameBytes(a, st.nonce, c))
  {
    EncodeOne(a, st.nonce, c);
    var fs := FrameList(a, st.nonce, [c]);
    assert fs == [FrameBytes(a, st.nonce, c)] + FrameList(a, After(st.nonce, FrameNonces(c)), [c][1..]);
    assert fs[1..] == [];
  }

  function ChunksFrom(p: seq<Byte>, n: nat): seq<seq<Byte>>
    requires n <= |p|
  {
    if n < |p| then Chunks(p[n..]) else []
  }

  lemma ChunkStep(p: seq<Byte>, n: nat, nr: nat)
    requires n < |p| && nr == (if n + PAYLOAD_MAX > |p| then |p| - n else PAYLOAD_MAX)
    ensures ChunksFrom(p, n) == [p[n..n + nr]] + ChunksFrom(p, n + nr)
  {
    if n + nr == |p| {
      assert p[n..n + nr] == p[n..];
    } else {
      assert p[n..][..PAYLOAD_MAX] == p[n..n + nr];
      assert p[n..][PAYLOAD_MAX..] == p[n + nr..];
    }
  }
}
