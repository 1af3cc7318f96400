/** What every run of `tunPolicyConn` delivers, however the client cuts its octets into writes. */
module TunRuns {
  import opened Bytes
  import opened Wire
  import opened ClientHello
  import opened Fragment
  import opened Policies
  import opened Reassembly
  import opened TunBridge

  // ----- nothing reverts -----

  lemma PerformKeeps(c: ConnState, es: seq<Event>)
    ensures c.trace <= Perform(c, es).trace && (c.broken ==> Perform(c, es).broken)
  {
  }

  lemma HandleKeeps(pending: seq<Byte>, c: ConnState, plan: Loaded, matcher: Matcher)
    requires Ready(pending)
    ensures var next := Handle(pending, c, plan, matcher).0;
            c.trace <= next.conn.trace && (c.broken ==> next.conn.broken)
  {
    if IsTls(pending) {
      VerdictKeeps(pending, c, Judge(pending[..RecordEnd(pending)], plan, matcher));
    } else {
      PerformKeeps(c, [Send(pending)]);
    }
  }

  lemma VerdictKeeps(pending: seq<Byte>, c: ConnState, v: Verdict)
    requires Ready(pending) && IsTls(pending)
    ensures var next := HandleAs(pending, c, v).0;
            c.trace <= next.conn.trace && (c.broken ==> next.conn.broken)
  {
    var events := match v case Refused(es) => es case Unparsed => [Send(pending)] case Forwarded(script) => script.events;
    PerformKeeps(c, events);
    PerformKeeps(Perform(c, events), [Send(pending[RecordEnd(pending)..])]);
  }

  lemma StepKeepsFlags(st: TunState, b: seq<Byte>, plan: Loaded, matcher: Matcher)
    ensures var next := Step(st, b, plan, matcher).0;
            && (st.handled ==> next.handled) && (st.closed ==> next.closed) && (st.crashed ==> next.crashed)
            && (st.conn.broken ==> next.conn.broken) && st.conn.trace <= next.conn.trace
  {
    if Ready(st.pending + b) { HandleKeeps(st.pending + b, st.conn, plan, matcher); }
    PerformKeeps(st.conn, [Send(b)]);
  }

  /** `handled`, `closed` and a crash are final, and what was sent stays sent, along every run. */
  lemma {:induction false} RunKeepsFlags(st: TunState, xs: seq<seq<Byte>>, ys: seq<seq<Byte>>, plan: Loaded, matcher: Matcher)
    ensures var a, b := Run(st, xs, plan, matcher), Run(st, xs + ys, plan, matcher);
            && (a.handled ==> b.handled) && (a.closed ==> b.closed) && (a.crashed ==> b.crashed)
            && (a.conn.broken ==> b.conn.broken) && a.conn.trace <= b.conn.trace
    decreases |ys|
  {
    if ys == [] {
      assert xs + ys == xs;
    } else {
      var n := |ys| - 1;
      RunKeepsFlags(st, xs, ys[..n], plan, matcher);
      var all := xs + ys;
      assert all[..|all| - 1] == xs + ys[..n] && all[|all| - 1] == ys[n];
      var mid := Run(st, xs + ys[..n], plan, matcher);
      assert Run(st, all, plan, matcher) == Step(mid, ys[n], plan, matcher).0;
      StepKeepsFlags(mid, ys[n], plan, matcher);
    }
  }

  // ----- the octets present when the first record became ready -----

  function Arrived(ws: seq<seq<Byte>>): seq<Byte> {
    if ws == [] then []
    else if Ready(Flatten(ws[..|ws| - 1])) then Arrived(ws[..|ws| - 1])
    else Flatten(ws)
  }

  lemma FlattenLast(ws: seq<seq<Byte>>)
    requires ws != []
    ensures Flatten(ws) == Flatten(ws[..|ws| - 1]) + ws[|ws| - 1]
  {
    FlattenSnoc(ws[..|ws| - 1], ws[|ws| - 1]);
    assert ws[..|ws| - 1] + [ws[|ws| - 1]] == ws;
  }

  lemma {:induction false} ArrivedIsPrefix(ws: seq<seq<Byte>>)
    ensures Arrived(ws) <= Flatten(ws)
    ensures Ready(Arrived(ws)) <==> Ready(Flatten(ws))
    ensures !Ready(Flatten(ws)) ==> Arrived(ws) == Flatten(ws)
  {
    if ws != [] {
      FlattenLast(ws);
      ArrivedIsPrefix(ws[..|ws| - 1]);
    }
  }

  /** A longer stream has the same first record. */
  lemma ReadyExtends(a: seq<Byte>, s: seq<Byte>)
    requires Ready(a) && a <= s
    ensures Ready(s) && IsTls(s) == IsTls(a) && RecordEnd(s) == RecordEnd(a)
    ensures IsTls(a) ==> a[..RecordEnd(a)] == s[..RecordEnd(s)]
  {
  }

  // ----- healthy and failing runs -----

  function TailEvents(tail: seq<Byte>): seq<Event> { if tail == [] then [] else [Send(tail)] }

  /** The steps that handling a buffer takes, once its record is judged. */
  function VerdictEvents(pending: seq<Byte>, v: Verdict): seq<Event>
    requires Ready(pending) && IsTls(pending)
  {
    var tail := pending[RecordEnd(pending)..];
    match v
    case Refused(events) => events
    case Unparsed => [Send(pending)] + TailEvents(tail)
    case Forwarded(script) => script.events + if script.panics then [] else TailEvents(tail)
  }

  /** The steps that one `Write` takes unless one of them fails. */
  function StepEvents(st: TunState, b: seq<Byte>, plan: Loaded, matcher: Matcher): seq<Event> {
    if st.crashed || st.closed then []
    else if st.handled then [Send(b)]
    else
      var pending := st.pending + b;
      if !Ready(pending) then []
      else if !IsTls(pending) then [Send(pending)]
      else VerdictEvents(pending, Judge(pending[..RecordEnd(pending)], plan, matcher))
  }

  function Provided(st: TunState, steps: nat): TunState {
    st.(conn := st.conn.(left := steps))
  }

  /** A run on a connection that holds: every write is given as many good steps as it takes. */
  function HealthyRun(ws: seq<seq<Byte>>, plan: Loaded, matcher: Matcher): TunState {
    if ws == [] then Fresh(0, 0)
    else
      var st, w := HealthyRun(ws[..|ws| - 1], plan, matcher), ws[|ws| - 1];
      Step(Provided(st, |StepEvents(st, w, plan, matcher)|), w, plan, matcher).0
  }

  /** Everything a run is meant to perform. */
  function Planned(ws: seq<seq<Byte>>, plan: Loaded, matcher: Matcher): seq<Event> {
    HealthyRun(ws, plan, matcher).conn.trace
  }

  lemma FinishPerforms(pending: seq<Byte>, tail: seq<Byte>, script: Script, c: ConnState)
    ensures Finish(pending, tail, script, c).0.conn
            == Perform(c, script.events + if script.panics then [] else TailEvents(tail))
  {
    var more := if script.panics then [] else TailEvents(tail);
    TwoStages(c, script.events, more);
    PerformNothing(Perform(c, script.events));
  }

  lemma StepPerforms(st: TunState, b: seq<Byte>, plan: Loaded, matcher: Matcher)
    ensures Step(st, b, plan, matcher).0.conn == Perform(st.conn, StepEvents(st, b, plan, matcher))
  {
    PerformNothing(st.conn);
    var pending := st.pending + b;
    if Ready(pending) && IsTls(pending) {
      var tail, v := pending[RecordEnd(pending)..], Judge(pending[..RecordEnd(pending)], plan, matcher);
      match v {
        case Refused(_) =>
        case Unparsed => FinishPerforms(pending, tail, Script([Send(pending)], false), st.conn);
        case Forwarded(script) => FinishPerforms(pending, tail, script, st.conn);
      }
    }
  }

  lemma HandleIgnoresConn(pending: seq<Byte>, v: Verdict, c: ConnState, d: ConnState)
    requires Ready(pending) && IsTls(pending)
    requires |VerdictEvents(pending, v)| <= c.left && |VerdictEvents(pending, v)| <= d.left
    ensures var p, q := HandleAs(pending, c, v).0, HandleAs(pending, d, v).0; p == q.(conn := p.conn)
  {
  }

  /** With enough good steps, what a write leaves behind does not depend on the connection. */
  lemma StepIgnoresConn(st: TunState, c: ConnState, d: ConnState, b: seq<Byte>, plan: Loaded, matcher: Matcher)
    requires |StepEvents(st, b, plan, matcher)| <= c.left && |StepEvents(st, b, plan, matcher)| <= d.left
    ensures var p, q := Step(st.(conn := c), b, plan, matcher).0, Step(st.(conn := d), b, plan, matcher).0;
            p == q.(conn := p.conn)
  {
    var pending := st.pending + b;
    if !st.crashed && !st.closed && !st.handled && Ready(pending) && IsTls(pending) {
      HandleIgnoresConn(pending, Judge(pending[..RecordEnd(pending)], plan, matcher), c, d);
    }
  }

  lemma {:induction false} HealthyConn(ws: seq<seq<Byte>>, plan: Loaded, matcher: Matcher)
    ensures HealthyRun(ws, plan, matcher).conn == ConnState(Planned(ws, plan, matcher), 0, 0, false)
  {
    if ws != [] {
      HealthyConn(ws[..|ws| - 1], plan, matcher);
      var st, w := HealthyRun(ws[..|ws| - 1], plan, matcher), ws[|ws| - 1];
      StepPerforms(Provided(st, |StepEvents(st, w, plan, matcher)|), w, plan, matcher);
    }
  }

  lemma PlannedGrows(ws: seq<seq<Byte>>, plan: Loaded, matcher: Matcher)
    requires ws != []
    ensures var before, w := ws[..|ws| - 1], ws[|ws| - 1];
            Planned(ws, plan, matcher)
            == Planned(before, plan, matcher) + StepEvents(HealthyRun(before, plan, matcher), w, plan, matcher)
  {
    var st, w := HealthyRun(ws[..|ws| - 1], plan, matcher), ws[|ws| - 1];
    StepPerforms(Provided(st, |StepEvents(st, w, plan, matcher)|), w, plan, matcher);
  }

  /** A broken connection stays as it is. */
  lemma PerformStuck(c: ConnState, es: seq<Event>)
    requires c.broken && c.left == 0 && c.part == 0
    ensures Perform(c, es) == c
  {
    if es != [] { assert c.trace + es[..0] + [] == c.trace; }
  }

  /** A run performs what is planned, as far as its connection allows. */
  lemma {:induction false} RunPerforms(ws: seq<seq<Byte>>, left: nat, part: nat, plan: Loaded, matcher: Matcher)
    ensures var st := Run(Fresh(left, part), ws, plan, matcher);
            && st.conn == Perform(NewConn(left, part), Planned(ws, plan, matcher))
            && (|Planned(ws, plan, matcher)| <= left ==> st == HealthyRun(ws, plan, matcher).(conn := st.conn))
    decreases |ws|
  {
    if ws == [] {
      PerformNothing(NewConn(left, part));
    } else {
      var before, w, c := ws[..|ws| - 1], ws[|ws| - 1], NewConn(left, part);
      RunPerforms(before, left, part, plan, matcher);
      PlannedGrows(ws, plan, matcher);
      var st, healthy := Run(Fresh(left, part), before, plan, matcher), HealthyRun(before, plan, matcher);
      var done, es := Planned(before, plan, matcher), StepEvents(healthy, w, plan, matcher);
      StepPerforms(st, w, plan, matcher);
      TwoStages(c, done, es);
      if |done| > left {
        PerformStuck(st.conn, StepEvents(st, w, plan, matcher));
      } else if |done + es| <= left {
        StepIgnoresConn(healthy, st.conn, healthy.conn.(left := |es|), w, plan, matcher);
      }
    }
  }

  // ----- what is delivered -----

  /**
   The state a run should have reached once the first record is ready: `s` has been written in all, `a` when the
   record became ready, and the record (if it is one) was judged `v`.
   */
  ghost predicate Settled(st: TunState, a: seq<Byte>, s: seq<Byte>, v: Verdict)
    requires Ready(a) && a <= s
  {
    if !IsTls(a) then
      st.handled && !st.closed && !st.crashed && st.pending == [] && Stream(st.conn.trace) == s
    else
      var end := RecordEnd(a);
      match v
      case Refused(events) =>
        st.handled && st.closed && !st.crashed && st.pending == [] && st.conn.trace == events
      case Unparsed =>
        st.handled && !st.closed && !st.crashed && st.pending == []
        && Stream(st.conn.trace) == a + a[end..] + s[|a|..]
      case Forwarded(script) =>
        if script.panics then
          !st.handled && !st.closed && st.crashed && st.pending == a && st.conn.trace == script.events
        else
          st.handled && !st.closed && !st.crashed && st.pending == []
          && script.events <= st.conn.trace && Stream(st.conn.trace) == Stream(script.events) + s[end..]
  }

  /** The verdict on the first record. */
  function FirstVerdict(s: seq<Byte>, plan: Loaded, matcher: Matcher): Verdict
    requires Ready(s)
  {
    if IsTls(s) then Judge(s[..RecordEnd(s)], plan, matcher) else Unparsed
  }

  ghost predicate Delivered(st: TunState, a: seq<Byte>, s: seq<Byte>, plan: Loaded, matcher: Matcher)
    requires Ready(a) && a <= s
  {
    Settled(st, a, s, FirstVerdict(a, plan, matcher))
  }

  ghost predicate Explained(st: TunState, ws: seq<seq<Byte>>, plan: Loaded, matcher: Matcher) {
    var s, a := Flatten(ws), Arrived(ws);
    if !Ready(s) then st == TunState(false, false, false, s, NewConn(0, 0))
    else Ready(a) && a <= s && Delivered(st, a, s, plan, matcher)
  }

  lemma StreamOfSend(trace: seq<Event>, d: seq<Byte>)
    ensures Stream(trace + [Send(d)]) == Stream(trace) + d
  {
    StreamAppend(trace, [Send(d)]);
    StreamOfPair(Send(d));
  }

  lemma FinishSettles(s: seq<Byte>, script: Script, left: nat)
    requires Ready(s) && IsTls(s)
    ensures var st := Finish(s, s[RecordEnd(s)..], script, NewConn(left, 0)).0;
            !st.conn.broken ==>
              if script.panics then st == TunState(false, false, true, s, st.conn) && st.conn.trace == script.events
              else st == TunState(true, false, false, [], st.conn) && script.events <= st.conn.trace
                   && Stream(st.conn.trace) == Stream(script.events) + s[RecordEnd(s)..]
  {
    var tail := s[RecordEnd(s)..];
    assert [] + script.events == script.events;
    StreamOfSend(script.events, tail);
  }

  lemma VerdictSettles(s: seq<Byte>, v: Verdict, left: nat)
    requires Ready(s) && IsTls(s)
    ensures var st := HandleAs(s, NewConn(left, 0), v).0;
            !st.conn.broken ==> Settled(st, s, s, v)
  {
    assert s[|s|..] == [];
    match v {
      case Refused(events) =>
        assert [] + events == events;
      case Unparsed =>
        FinishSettles(s, Script([Send(s)], false), left);
        StreamOfPair(Send(s));
      case Forwarded(script) =>
        FinishSettles(s, script, left);
    }
  }

  lemma HandleDelivers(s: seq<Byte>, left: nat, plan: Loaded, matcher: Matcher)
    requires Ready(s)
    ensures var st := Handle(s, NewConn(left, 0), plan, matcher).0;
            !st.conn.broken ==> Delivered(st, s, s, plan, matcher)
  {
    if IsTls(s) {
      VerdictSettles(s, FirstVerdict(s, plan, matcher), left);
    } else {
      assert [] + [Send(s)] == [Send(s)];
      StreamOfPair(Send(s));
    }
  }

  lemma PassThrough(st: TunState, a: seq<Byte>, s: seq<Byte>, w: seq<Byte>, v: Verdict, plan: Loaded, matcher: Matcher)
    requires Ready(a) && a <= s && Settled(st, a, s, v)
    ensures var next := Step(st, w, plan, matcher).0;
            !next.conn.broken ==> Settled(next, a, s + w, v)
  {
    assert st.handled || st.crashed;
    if !st.crashed && !st.closed {
      StreamOfSend(st.conn.trace, w);
      if IsTls(a) {
        var end := RecordEnd(a);
        if v.Unparsed? {
          var x, y := a + a[end..], s[|a|..];
          assert x + y + w == x + (y + w);
          assert (s + w)[|a|..] == y + w;
        } else {
          var x, y := Stream(v.script.events), s[end..];
          assert x + y + w == x + (y + w);
          assert (s + w)[end..] == y + w;
        }
      }
    }
  }

  /** A healthy run, however it is cut into writes, is explained by the octets written. */
  lemma {:induction false} HealthyExplained(ws: seq<seq<Byte>>, plan: Loaded, matcher: Matcher)
    ensures Explained(HealthyRun(ws, plan, matcher), ws, plan, matcher)
  {
    if ws != [] {
      var n := |ws| - 1;
      var before, s, w := ws[..n], Flatten(ws[..n]), ws[n];
      HealthyExplained(before, plan, matcher);
      HealthyConn(before, plan, matcher);
      FlattenLast(ws);
      ArrivedIsPrefix(ws);
      var st := HealthyRun(before, plan, matcher);
      var ready := Provided(st, |StepEvents(st, w, plan, matcher)|);
      StepPerforms(ready, w, plan, matcher);
      if !Ready(s) {
        if Ready(s + w) { HandleDelivers(s + w, ready.conn.left, plan, matcher); }
      } else {
        ReadyExtends(s, s + w);
        PassThrough(ready, Arrived(before), s, w, FirstVerdict(Arrived(before), plan, matcher), plan, matcher);
      }
    }
  }

  /**
   Every run, every chunking, every failure point.  The healthy run is explained by the octets written; a run on a
   connection with `left` good steps performs what the healthy one does, up to the failure; and if there is none it
   ends in the same state.
   */
  lemma EveryRun(ws: seq<seq<Byte>>, left: nat, part: nat, plan: Loaded, matcher: Matcher)
    ensures var healthy, st := HealthyRun(ws, plan, matcher), Run(Fresh(left, part), ws, plan, matcher);
            && Explained(healthy, ws, plan, matcher)
            && st.conn == Perform(NewConn(left, part), healthy.conn.trace)
            && (|healthy.conn.trace| <= left ==> st == healthy.(conn := st.conn))
  {
    HealthyExplained(ws, plan, matcher);
    RunPerforms(ws, left, part, plan, matcher);
  }

  /** A failing run sends a beginning of what the healthy one sends; it fails exactly when it has too few good steps. */
  lemma FailingRunSendsPrefix(ws: seq<seq<Byte>>, left: nat, part: nat, plan: Loaded, matcher: Matcher)
    ensures var planned, conn := Planned(ws, plan, matcher), Run(Fresh(left, part), ws, plan, matcher).conn;
            && Stream(conn.trace) <= Stream(planned)
            && (conn.broken <==> left < |planned|)
            && (!conn.broken ==> conn.trace == planned)
  {
    RunPerforms(ws, left, part, plan, matcher);
    PerformSendsPrefix(left, part, Planned(ws, plan, matcher));
  }

  /** Of two runs over the same writes, the one that fails earlier sends a beginning of what the other sends. */
  lemma RunBehind(ws: seq<seq<Byte>>, left: nat, part: nat, more: nat, other: nat, plan: Loaded, matcher: Matcher)
    requires left < more
    ensures Stream(Run(Fresh(left, part), ws, plan, matcher).conn.trace) <= Stream(Run(Fresh(more, other), ws, plan, matcher).conn.trace)
  {
    RunPerforms(ws, left, part, plan, matcher);
    RunPerforms(ws, more, other, plan, matcher);
    PerformBehind(left, part, more, other, Planned(ws, plan, matcher));
  }
}
