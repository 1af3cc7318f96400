/**
 An underlying writer that takes `left` more writes; of the one that then fails `part` octets get out, and nothing
 afterwards.
 */
module Sinks {
  import opened Bytes

  datatype SinkState = SinkState(data: seq<Byte>, left: nat, part: nat)

  function Put(s: SinkState, b: seq<Byte>): SinkState {
    if s.left > 0 then SinkState(s.data + b, s.left - 1, s.part)
    else SinkState(s.data + b[..if s.part < |b| then s.part else |b|], 0, 0)
  }

  /** Writes in order, up to and including the first that fails. */
  function PutAll(s: SinkState, bs: seq<seq<Byte>>): SinkState
    decreases |bs|
  {
    if bs == [] then s else if s.left == 0 then Put(s, bs[0]) else PutAll(Put(s, bs[0]), bs[1..])
  }

  /** The writes that are tried: all of them, or those up to the failing one. */
  function Tried<T>(left: nat, bs: seq<T>): seq<T> {
    if |bs| <= left then bs else bs[..left + 1]
  }

  lemma TriedCons<T>(left: nat, b: T, bs: seq<T>)
    ensures Tried(left, [b] + bs) == [b] + if left == 0 then [] else Tried(left - 1, bs)
  {
  }

  lemma {:induction false} PutAllWhole(s: SinkState, bs: seq<seq<Byte>>)
    requires |bs| <= s.left
    ensures PutAll(s, bs) == SinkState(s.data + Flatten(bs), s.left - |bs|, s.part)
    decreases |bs|
  {
    if bs != [] {
      PutAllWhole(Put(s, bs[0]), bs[1..]);
      assert s.data + bs[0] + Flatten(bs[1..]) == s.data + (bs[0] + Flatten(bs[1..]));
    } else {
      assert s.data + [] == s.data;
    }
  }

  /** A failure leaves a beginning of what was to be written, and a sink that takes nothing more. */
  lemma {:induction false} PutAllFails(s: SinkState, bs: seq<seq<Byte>>)
    requires |bs| > s.left
    ensures var t := PutAll(s, bs); t.left == 0 && t.part == 0 && s.data <= t.data <= s.data + Flatten(bs)
    decreases |bs|
  {
    if s.left > 0 {
      PutAllFails(Put(s, bs[0]), bs[1..]);
      assert s.data + bs[0] + Flatten(bs[1..]) == s.data + (bs[0] + Flatten(bs[1..]));
    }
  }

  class Sink {
    var data: seq<Byte>
    var left: nat
    var part: nat

    function State(): SinkState
      reads this
    {
      SinkState(data, left, part)
    }

    constructor (left: nat, part: nat)
      ensures State() == SinkState([], left, part)
    {
      this.data, this.left, this.part := [], left, part;
    }

    method Write(b: seq<Byte>) returns (ok: bool)
      modifies this
      ensures State() == Put(old(State()), b)
      ensures ok <==> old(left) > 0
    {
      ok := left > 0;
      if ok {
        data, left := data + b, left - 1;
      } else {
        data, part := data + b[..if part < |b| then part else |b|], 0;
      }
    }
  }
}
