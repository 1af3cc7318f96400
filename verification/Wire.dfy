/**
 An outbound connection as the trace of the steps performed on it.  Every step may fail: the connection
 carries the number of steps that still succeed and the number of octets the failing one still gets out.
 A failed step ends the connection.
 */
module Wire {
  import opened Bytes

  /**
   `SendUrgent` is one send with the urgent flag, its last octet `urgent`; a `filler` octet is a literal
   zero that is not part of the data.  `QueryTtl` asks the socket for its TTL; `Desync` is the kernel trick that
   sends `data` behind a decoy.
   */
  datatype Event =
    | Send(data: seq<Byte>)
    | SendUrgent(data: seq<Byte>, urgent: Byte, filler: bool)
    | AwaitAck
    | ProbeTtl
    | QueryTtl
    | Desync(data: seq<Byte>)
    | Close

  function Payload(e: Event): seq<Byte> {
    match e
    case Send(d) => d
    case SendUrgent(d, u, filler) => if filler then d else d + [u]
    case Desync(d) => d
    case _ => []
  }

  /** The data carried by a trace, filler octets erased. */
  function Stream(es: seq<Event>): seq<Byte> {
    if es == [] then [] else Payload(es[0]) + Stream(es[1..])
  }

  lemma {:induction false} StreamAppend(a: seq<Event>, b: seq<Event>)
    ensures Stream(a + b) == Stream(a) + Stream(b)
  {
    if a == [] {
      assert a + b == b;
    } else {
      StreamAppend(a[1..], b);
      Associate([a[0]], a[1..], b);
      assert a == [a[0]] + a[1..];
      StreamCons(a[0], a[1..] + b);
      Associate(Payload(a[0]), Stream(a[1..]), Stream(b));
    }
  }

  /** What a failing step leaves behind when `part` octets of it get out. */
  function Torn(e: Event, part: nat): (r: seq<Event>)
    ensures Stream(r) <= Payload(e)
  {
    var d := Payload(e);
    if part == 0 || d == [] then []
    else
      var sent := d[..if part < |d| then part else |d|];
      StreamOfOne(Send(sent));
      [Send(sent)]
  }

  lemma StreamOfOne(e: Event)
    ensures Stream([e]) == Payload(e)
  {
    assert Stream([e]) == Payload(e) + Stream([]);
  }

  datatype ConnState = ConnState(trace: seq<Event>, left: nat, part: nat, broken: bool)

  function NewConn(left: nat, part: nat): ConnState { ConnState([], left, part, false) }

  /** Performing steps in order, stopping at the first failure. */
  function Perform(c: ConnState, es: seq<Event>): ConnState {
    if |es| <= c.left then ConnState(c.trace + es, c.left - |es|, c.part, c.broken)
    else ConnState(c.trace + es[..c.left] + Torn(es[c.left], c.part), 0, 0, true)
  }

  lemma PerformNothing(c: ConnState)
    ensures Perform(c, []) == c
  {
  }

  lemma PerformInOrder(c: ConnState, a: seq<Event>, b: seq<Event>)
    ensures Perform(Perform(c, a), b) == Perform(c, a + b)
  {
    if |a| <= c.left {
      var n := c.left - |a|;
      if |b| <= n {
        assert c.trace + a + b == c.trace + (a + b);
      } else {
        assert c.trace + a + b[..n] == c.trace + (a + b)[..c.left];
      }
    } else {
      PerformFailed(c, a, b);
      var d := Perform(c, a);
      if b != [] { assert d.trace + b[..0] + [] == d.trace; }
    }
  }

  /** Once a prefix has failed, the steps planned after it do not matter. */
  lemma PerformFailed(c: ConnState, a: seq<Event>, b: seq<Event>)
    requires |a| > c.left
    ensures Perform(c, a + b) == Perform(c, a)
  {
    assert (a + b)[..c.left] == a[..c.left];
  }

  lemma {:induction false} TornSends(es: seq<Event>, k: nat, part: nat)
    requires k < |es|
    ensures Stream(es[..k] + Torn(es[k], part)) <= Stream(es)
    decreases k
  {
    var torn := Torn(es[k], part);
    if k == 0 {
      assert es[..0] + torn == torn;
    } else {
      TornSends(es[1..], k - 1, part);
      StreamCons(es[0], es[1..][..k - 1] + torn);
      assert es[..k] + torn == [es[0]] + (es[1..][..k - 1] + torn);
    }
  }

  lemma StreamCons(e: Event, es: seq<Event>)
    ensures Stream([e] + es) == Payload(e) + Stream(es)
  {
    assert ([e] + es)[1..] == es;
  }

  /** Whatever the failure, what gets out is a beginning of what was meant to. */
  lemma PerformSendsPrefix(left: nat, part: nat, es: seq<Event>)
    ensures Stream(Perform(NewConn(left, part), es).trace) <= Stream(es)
    ensures Perform(NewConn(left, part), es).broken <==> left < |es|
    ensures left >= |es| ==> Perform(NewConn(left, part), es).trace == es
  {
    TraceOf(left, part, es);
    if left < |es| { TornSends(es, left, part); }
  }

  lemma TraceOf(left: nat, part: nat, es: seq<Event>)
    ensures Perform(NewConn(left, part), es).trace == if left < |es| then es[..left] + Torn(es[left], part) else es
  {
    if left < |es| { assert [] + es[..left] == es[..left]; } else { assert [] + es == es; }
  }

  lemma StreamGrows(a: seq<Event>, b: seq<Event>)
    ensures Stream(a) <= Stream(a + b)
  {
    StreamAppend(a, b);
  }

  /** The connection that fails earlier sends a beginning of what the other sends. */
  lemma PerformBehind(left: nat, part: nat, more: nat, other: nat, es: seq<Event>)
    requires left < more
    ensures Stream(Perform(NewConn(left, part), es).trace) <= Stream(Perform(NewConn(more, other), es).trace)
  {
    TraceOf(left, part, es);
    TraceOf(more, other, es);
    if more < |es| {
      var reached := es[..more];
      assert reached[..left] == es[..left] && reached[left] == es[left];
      TornSends(reached, left, part);
      StreamGrows(reached, Torn(es[more], other));
    } else if left < |es| {
      TornSends(es, left, part);
    }
  }

  class Conn {
    var trace: seq<Event>
    var left: nat
    var part: nat
    var broken: bool

    function State(): ConnState
      reads this
    {
      ConnState(trace, left, part, broken)
    }

    constructor (left: nat, part: nat)
      ensures State() == NewConn(left, part)
    {
      this.trace, this.left, this.part, this.broken := [], left, part, false;
    }

    /** One fallible step. */
    method Do(e: Event) returns (ok: bool)
      modifies this
      ensures State() == Perform(old(State()), [e])
      ensures ok <==> old(left) > 0
    {
      ok := left > 0;
      if ok {
        trace, left := trace + [e], left - 1;
      } else {
        assert trace + [e][..0] == trace;
        trace, part, broken := trace + Torn(e, part), 0, true;
      }
    }
  }
}
