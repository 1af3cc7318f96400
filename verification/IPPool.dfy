/**
 The IP pool: the best results of a scan are kept with weights, and `Get` hands them out in weighted round-robin order
 driven by a 32-bit counter.
 */
module IPPools {
  import opened Arith

  const MIN_WEIGHT := 1
  const MAX_WEIGHT := 10000
  const WEIGHT_SCALE := 10000.0
  const MILLISECOND := 1000000.0
  const COUNTERS: nat := 0x1_0000_0000

  // ----- ranking -----

  /** The outcome of testing one address: mean latency in nanoseconds and the fraction of failed attempts. */
  datatype Probe = Probe(ip: nat, latency: int, loss: real) {
    predicate Ok(n: nat) { ip < n && latency >= 0 && 0.0 <= loss <= 1.0 }
    predicate Precedes(other: Probe) { loss < other.loss || (loss == other.loss && latency < other.latency) }
    predicate Ties(other: Probe) { loss == other.loss && latency == other.latency }
  }

  predicate Sorted(s: seq<Probe>) {
    forall i, j :: 0 <= i < j < |s| ==> !s[j].Precedes(s[i])
  }

  /** Puts `x` behind everything it does not precede. */
  function Insert(s: seq<Probe>, x: Probe): seq<Probe> {
    if s == [] || !x.Precedes(s[|s| - 1]) then s + [x] else Insert(s[..|s| - 1], x) + [s[|s| - 1]]
  }

  /** The stable sort by loss, then latency. */
  function StableSort(rs: seq<Probe>): seq<Probe> {
    if rs == [] then [] else Insert(StableSort(rs[..|rs| - 1]), rs[|rs| - 1])
  }

  lemma {:induction false} InsertMultiset(s: seq<Probe>, x: Probe)
    ensures multiset(Insert(s, x)) == multiset(s) + multiset{x}
  {
    if s != [] && x.Precedes(s[|s| - 1]) {
      InsertMultiset(s[..|s| - 1], x);
      assert s == s[..|s| - 1] + [s[|s| - 1]];
    }
  }

  lemma {:induction false} InsertSorted(s: seq<Probe>, x: Probe)
    requires Sorted(s)
    ensures Sorted(Insert(s, x))
  {
    if s != [] && x.Precedes(s[|s| - 1]) {
      var init, last := s[..|s| - 1], s[|s| - 1];
      InsertSorted(init, x);
      InsertMultiset(init, x);
      var t := Insert(init, x);
      forall i | 0 <= i < |t| ensures !last.Precedes(t[i]) {
        assert t[i] in multiset(t);
        if t[i] != x { assert t[i] in init; }
      }
    }
  }

  lemma {:induction false} SortSorts(rs: seq<Probe>)
    ensures Sorted(StableSort(rs)) && multiset(StableSort(rs)) == multiset(rs)
  {
    if rs != [] {
      var init, x := rs[..|rs| - 1], rs[|rs| - 1];
      SortSorts(init);
      InsertSorted(StableSort(init), x);
      assert multiset(StableSort(rs)) == multiset(init) + multiset{x} by { InsertMultiset(StableSort(init), x); }
      assert multiset(rs) == multiset(init) + multiset{x} by { assert rs == init + [x]; }
    }
  }

  /** The results that tie with `k`, in order. */
  function Tied(s: seq<Probe>, k: Probe): seq<Probe> {
    if s == [] then [] else Tied(s[..|s| - 1], k) + if s[|s| - 1].Ties(k) then [s[|s| - 1]] else []
  }

  lemma {:induction false} InsertTied(s: seq<Probe>, x: Probe, k: Probe)
    requires Sorted(s)
    ensures Tied(Insert(s, x), k) == Tied(s, k) + if x.Ties(k) then [x] else []
  {
    if s == [] || !x.Precedes(s[|s| - 1]) {
      assert (s + [x])[..|s|] == s;
    } else {
      var init, last := s[..|s| - 1], s[|s| - 1];
      InsertTied(init, x, k);
      var t := Insert(init, x);
      assert (t + [last])[..|t|] == t;
    }
  }

  /** Ties keep the order in which the results arrived. */
  lemma {:induction false} SortIsStable(rs: seq<Probe>, k: Probe)
    ensures Tied(StableSort(rs), k) == Tied(rs, k)
  {
    if rs != [] {
      SortIsStable(rs[..|rs| - 1], k);
      SortSorts(rs[..|rs| - 1]);
      InsertTied(StableSort(rs[..|rs| - 1]), rs[|rs| - 1], k);
    }
  }

  predicate Distinct(rs: seq<Probe>) {
    forall i, j :: 0 <= i < j < |rs| ==> rs[i].ip != rs[j].ip
  }

  predicate ResultsOk(rs: seq<Probe>, n: nat) {
    Distinct(rs) && forall i :: 0 <= i < |rs| ==> rs[i].Ok(n)
  }

  lemma {:induction false} InsertDistinct(s: seq<Probe>, x: Probe, n: nat)
    requires ResultsOk(s, n) && x.Ok(n) && forall i :: 0 <= i < |s| ==> s[i].ip != x.ip
    ensures ResultsOk(Insert(s, x), n)
  {
    if s != [] && x.Precedes(s[|s| - 1]) {
      var init := s[..|s| - 1];
      InsertDistinct(init, x, n);
      InsertMultiset(init, x);
      var t := Insert(init, x);
      forall i | 0 <= i < |t| ensures t[i].ip != s[|s| - 1].ip {
        assert t[i] in multiset(t);
        if t[i] != x { assert t[i] in init; }
      }
    }
  }

  lemma {:induction false} SortKeepsResults(rs: seq<Probe>, n: nat)
    requires ResultsOk(rs, n)
    ensures ResultsOk(StableSort(rs), n) && |StableSort(rs)| == |rs|
  {
    SortSorts(rs);
    assert |StableSort(rs)| == |multiset(StableSort(rs))| == |multiset(rs)|;
    if rs != [] {
      var init, x := rs[..|rs| - 1], rs[|rs| - 1];
      SortKeepsResults(init, n);
      SortSorts(init);
      var s := StableSort(init);
      forall i | 0 <= i < |s| ensures s[i].ip != x.ip {
        assert s[i] in multiset(s);
        assert s[i] in init;
      }
      InsertDistinct(s, x, n);
    }
  }

  lemma PastPrefix(s: seq<Probe>, k: nat, x: Probe) returns (j: nat)
    requires k <= |s| && x in s && x !in s[..k]
    ensures k <= j < |s| && s[j] == x
  {
    assert s == s[..k] + s[k..];
    var n :| 0 <= n < |s[k..]| && s[k..][n] == x;
    j := k + n;
  }

  /** The `k` results kept are the best: nothing left out precedes anything kept. */
  lemma KeptAreBest(rs: seq<Probe>, k: nat, kept: Probe, out: Probe)
    requires k <= |StableSort(rs)| && kept in StableSort(rs)[..k] && out in rs && out !in StableSort(rs)[..k]
    ensures !out.Precedes(kept)
  {
    var s := StableSort(rs);
    SortSorts(rs);
    assert out in s by { assert out in multiset(rs) && out in multiset(s); }
    var j := PastPrefix(s, k, out);
    var i :| 0 <= i < k && s[..k][i] == kept;
    assert s[i] == kept;
  }

  // ----- weights -----

  /** Latency in milliseconds, stretched by the loss. */
  function Cost(p: Probe): (c: real)
    requires p.latency >= 0 && p.loss >= 0.0
    ensures c > 0.0
  {
    var ms := p.latency as real / MILLISECOND;
    assert ms * (1.0 + p.loss) >= 0.0;
    ms * (1.0 + p.loss) + 0.00001
  }

  /**
   What weighing promises, in the measured quantities: the largest number in 1..10000 whose product with the latency
   in nanoseconds, stretched by the loss and ten nanoseconds longer, stays within ten seconds; or 1.
   */
  predicate Weighs(p: Probe, w: nat) {
    var stretched := p.latency as real * (1.0 + p.loss) + 10.0;
    && 1 <= w <= 10000
    && (w > 1 ==> w as real * stretched <= 10000000000.0)
    && (w < 10000 ==> (w + 1) as real * stretched > 10000000000.0)
  }

  function Weight(p: Probe): (w: nat)
    requires p.latency >= 0 && p.loss >= 0.0
    ensures MIN_WEIGHT <= w <= MAX_WEIGHT
  {
    var w := WEIGHT_SCALE / Cost(p);
    if w < 1.0 then MIN_WEIGHT else if w > 10000.0 then MAX_WEIGHT else w.Floor
  }

  lemma CostInNanoseconds(p: Probe)
    requires p.latency >= 0 && p.loss >= 0.0
    ensures MILLISECOND * Cost(p) == p.latency as real * (1.0 + p.loss) + 10.0
  {
    var ms, l := p.latency as real / MILLISECOND, 1.0 + p.loss;
    assert MILLISECOND * ms == p.latency as real;
    assert MILLISECOND * (ms * l) == (MILLISECOND * ms) * l;
  }

  lemma LargestByCost(p: Probe)
    requires p.latency >= 0 && p.loss >= 0.0
    ensures var w := Weight(p);
            && (w > MIN_WEIGHT ==> w as real * Cost(p) <= WEIGHT_SCALE)
            && (w < MAX_WEIGHT ==> (w + 1) as real * Cost(p) > WEIGHT_SCALE)
  {
    var c, w := Cost(p), Weight(p);
    var q := WEIGHT_SCALE / c;
    assert q * c == WEIGHT_SCALE by { Quotient(WEIGHT_SCALE, c); }
    assert w > MIN_WEIGHT ==> w as real <= q;
    assert w < MAX_WEIGHT ==> q < (w + 1) as real;
    Scaled(w as real, q, c);
    Scaled(q, (w + 1) as real, c);
  }

  lemma WeightIsLargest(p: Probe)
    requires p.latency >= 0 && p.loss >= 0.0
    ensures Weighs(p, Weight(p))
  {
    var c, w := Cost(p), Weight(p);
    LargestByCost(p);
    CostInNanoseconds(p);
    InNanoseconds(w as real, c);
    InNanoseconds((w + 1) as real, c);
  }

  lemma InNanoseconds(w: real, c: real)
    ensures w * (MILLISECOND * c) <= 10000000000.0 <==> w * c <= WEIGHT_SCALE
  {
    assert w * (MILLISECOND * c) == MILLISECOND * (w * c);
  }

  lemma Quotient(s: real, c: real)
    requires c > 0.0
    ensures s / c * c == s
  {
  }

  lemma Scaled(x: real, y: real, c: real)
    requires c > 0.0
    ensures x <= y ==> x * c <= y * c
    ensures x < y ==> x * c < y * c
  {
    assert (y - x) * c == y * c - x * c;
  }

  /** An address that is no slower and loses no more never weighs less. */
  lemma BetterWeighsMore(p: Probe, q: Probe)
    requires 0 <= p.latency <= q.latency && 0.0 <= p.loss <= q.loss
    ensures Weight(p) >= Weight(q)
  {
    var x, y := p.latency as real / MILLISECOND, q.latency as real / MILLISECOND;
    assert x * (1.0 + p.loss) <= y * (1.0 + q.loss) by {
      assert x * (1.0 + p.loss) <= y * (1.0 + p.loss);
      assert y * (1.0 + p.loss) <= y * (1.0 + q.loss);
    }
    Shares(WEIGHT_SCALE, Cost(p), Cost(q));
  }

  lemma Shares(s: real, a: real, b: real)
    requires s > 0.0 && 0.0 < a <= b
    ensures s / a >= s / b
  {
    var x, y := s / a, s / b;
    assert x * a == s && y * b == s && y > 0.0;
    assert y * a <= y * b;
    assert x < y ==> x * a < y * a;
  }

  function Sum(ws: seq<nat>): nat {
    if ws == [] then 0 else Sum(ws[..|ws| - 1]) + ws[|ws| - 1]
  }

  lemma {:induction false} SumBounds(ws: seq<nat>)
    requires forall i :: 0 <= i < |ws| ==> 1 <= ws[i] <= MAX_WEIGHT
    ensures |ws| <= Sum(ws) <= MAX_WEIGHT * |ws|
  {
    if ws != [] { SumBounds(ws[..|ws| - 1]); }
  }

  lemma SumSnoc(ws: seq<nat>, i: nat)
    requires i < |ws|
    ensures Sum(ws[..i + 1]) == Sum(ws[..i]) + ws[i]
  {
    assert ws[..i + 1][..i] == ws[..i];
  }

  lemma {:induction false} SumMonotone(ws: seq<nat>, i: nat, j: nat)
    requires i <= j <= |ws|
    ensures Sum(ws[..i]) <= Sum(ws[..j])
  {
    if i < j {
      SumMonotone(ws, i, j - 1);
      SumSnoc(ws, j - 1);
    }
  }

  // ----- handing out -----

  /** The entry in whose slice of the total the target falls. */
  function Pick(ws: seq<nat>, target: nat): (i: nat)
    requires target < Sum(ws)
    ensures i < |ws| && Sum(ws[..i]) <= target < Sum(ws[..i + 1])
  {
    var n := |ws| - 1;
    if target >= Sum(ws[..n]) then
      assert ws[..n + 1] == ws;
      n
    else
      var i := Pick(ws[..n], target);
      assert ws[..n][..i] == ws[..i] && ws[..n][..i + 1] == ws[..i + 1];
      i
  }

  lemma PickIs(ws: seq<nat>, target: nat, i: nat)
    requires target < Sum(ws) && i < |ws|
    ensures Pick(ws, target) == i <==> Sum(ws[..i]) <= target < Sum(ws[..i]) + ws[i]
  {
    SumSnoc(ws, i);
    var k := Pick(ws, target);
    if k < i { SumMonotone(ws, k + 1, i); }
    if i < k { SumMonotone(ws, i + 1, k); }
  }

  predicate Below(targets: seq<nat>, m: nat) {
    forall k :: 0 <= k < |targets| ==> targets[k] < m
  }

  /** How many of the targets fall to entry `i`. */
  function Hits(ws: seq<nat>, targets: seq<nat>, i: nat): nat
    requires Below(targets, Sum(ws))
  {
    if targets == [] then 0
    else
      var n := |targets| - 1;
      Hits(ws, targets[..n], i) + if Pick(ws, targets[n]) == i then 1 else 0
  }

  lemma HitsSnoc(ws: seq<nat>, a: seq<nat>, t: nat, i: nat)
    requires Below(a, Sum(ws)) && t < Sum(ws)
    ensures Below(a + [t], Sum(ws))
    ensures Hits(ws, a + [t], i) == Hits(ws, a, i) + if Pick(ws, t) == i then 1 else 0
  {
    assert (a + [t])[..|a|] == a;
  }

  lemma {:induction false} HitsAppend(ws: seq<nat>, a: seq<nat>, b: seq<nat>, i: nat)
    requires Below(a, Sum(ws)) && Below(b, Sum(ws))
    ensures Below(a + b, Sum(ws))
    ensures Hits(ws, a + b, i) == Hits(ws, a, i) + Hits(ws, b, i)
    decreases |b|
  {
    if b == [] {
      assert a + b == a;
    } else {
      var init, t := b[..|b| - 1], b[|b| - 1];
      HitsAppend(ws, a, init, i);
      HitsSnoc(ws, a + init, t, i);
      HitsSnoc(ws, init, t, i);
      assert init + [t] == b && (a + init) + [t] == a + b;
    }
  }

  function Range(lo: nat, hi: nat): (r: seq<nat>)
    requires lo <= hi
    ensures |r| == hi - lo && forall k :: 0 <= k < hi - lo ==> r[k] == lo + k
  {
    seq(hi - lo, k requires 0 <= k => lo + k)
  }

  /** Of the targets below `n`, entry `i` gets its slice and nothing else. */
  lemma {:induction false} HitsBelow(ws: seq<nat>, n: nat, i: nat)
    requires n <= Sum(ws) && i < |ws|
    ensures var before := Sum(ws[..i]);
            Hits(ws, Range(0, n), i) == if n <= before then 0 else if n <= before + ws[i] then n - before else ws[i]
  {
    if n > 0 {
      HitsBelow(ws, n - 1, i);
      assert Range(0, n)[..n - 1] == Range(0, n - 1);
      PickIs(ws, n - 1, i);
    }
  }

  lemma HitsOfAll(ws: seq<nat>, i: nat)
    requires i < |ws|
    ensures Hits(ws, Range(0, Sum(ws)), i) == ws[i]
  {
    HitsBelow(ws, Sum(ws), i);
    SumSnoc(ws, i);
    SumMonotone(ws, i + 1, |ws|);
    assert ws[..|ws|] == ws;
  }

  lemma HitsOfSwap(ws: seq<nat>, a: seq<nat>, b: seq<nat>, i: nat)
    requires Below(a, Sum(ws)) && Below(b, Sum(ws))
    ensures Below(a + b, Sum(ws)) && Below(b + a, Sum(ws)) && Hits(ws, a + b, i) == Hits(ws, b + a, i)
  {
    HitsAppend(ws, a, b, i);
    HitsAppend(ws, b, a, i);
  }

  lemma RangeJoins(s: nat, m: nat)
    requires s <= m
    ensures Range(0, s) + Range(s, m) == Range(0, m)
    ensures Below(Range(0, s), m) && Below(Range(s, m), m)
  {
  }

  /** A rotation of all targets. */
  lemma HitsOfRotation(ws: seq<nat>, s: nat, i: nat)
    requires i < |ws| && s <= Sum(ws)
    ensures Hits(ws, Range(s, Sum(ws)) + Range(0, s), i) == ws[i]
  {
    RangeJoins(s, Sum(ws));
    HitsOfSwap(ws, Range(s, Sum(ws)), Range(0, s), i);
    HitsOfAll(ws, i);
  }

  // ----- counters and targets -----

  function NextCounter(c: nat, big: nat): nat { if c + 1 == big then 0 else c + 1 }

  function NextTarget(t: nat, m: nat): nat { if t + 1 == m then 0 else t + 1 }

  /** The targets that a run of `n` calls of `Get` uses, the counter standing at `c` and wrapping at `big`. */
  function RunTargets(c: nat, n: nat, big: nat, m: nat): (r: seq<nat>)
    requires m > 0
    ensures |r| == n && Below(r, m)
    decreases n
  {
    if n == 0 then [] else [c % m] + RunTargets(NextCounter(c, big), n - 1, big, m)
  }

  /** The same without division: the target steps along with the counter and starts over when the counter wraps. */
  function Stepped(c: nat, t: nat, n: nat, big: nat, m: nat): seq<nat>
    decreases n
  {
    if n == 0 then []
    else [t] + Stepped(NextCounter(c, big), if c + 1 == big then 0 else NextTarget(t, m), n - 1, big, m)
  }

  lemma ModNext(c: nat, m: nat)
    requires m > 0
    ensures (c + 1) % m == NextTarget(c % m, m)
  {
    var q, t := c / m, c % m;
    assert c == q * m + t;
    if t + 1 == m {
      assert c + 1 == (q + 1) * m + 0 by { assert (q + 1) * m == q * m + m; }
      DivModUnique(c + 1, m, q + 1, 0);
    } else {
      DivModUnique(c + 1, m, q, t + 1);
    }
  }

  lemma ModZero(m: nat)
    requires m > 0
    ensures 0 % m == 0
  {
    DivModUnique(0, m, 0, 0);
  }

  lemma ModFloor(big: nat, m: nat)
    requires m > 0
    ensures big % m <= big && (big - big % m) % m == 0
  {
    var q := big / m;
    assert big == q * m + big % m && q * m >= 0;
    DivModUnique(big - big % m, m, q, 0);
  }

  lemma {:induction false} RunIsStepped(c: nat, n: nat, big: nat, m: nat)
    requires m > 0
    ensures RunTargets(c, n, big, m) == Stepped(c, c % m, n, big, m)
    decreases n
  {
    if n > 0 {
      RunIsStepped(NextCounter(c, big), n - 1, big, m);
      if c + 1 == big { ModZero(m); } else { ModNext(c, m); }
    }
  }

  /** Targets counted up from `t` and starting over at `m`. */
  function Ramp(t: nat, n: nat, m: nat): seq<nat>
    decreases n
  {
    if n == 0 then [] else [t] + Ramp(NextTarget(t, m), n - 1, m)
  }

  lemma RangeCons(lo: nat, hi: nat)
    requires lo < hi
    ensures Range(lo, hi) == [lo] + Range(lo + 1, hi)
  {
  }

  lemma {:induction false} RampUp(t: nat, n: nat, m: nat)
    requires t + n <= m
    ensures Ramp(t, n, m) == Range(t, t + n)
    decreases n
  {
    if n == 1 {
      assert Ramp(t, 1, m) == [t] + Ramp(NextTarget(t, m), 0, m) == [t];
    } else if n > 1 {
      RampUp(t + 1, n - 1, m);
      RangeCons(t, t + n);
    }
  }

  lemma {:induction false} RampOver(t: nat, n: nat, m: nat)
    requires t < m < t + n && n <= m
    ensures Ramp(t, n, m) == Range(t, m) + Range(0, t + n - m)
    decreases n
  {
    var x, y := Range(t + 1, m), Range(0, t + n - m);
    assert Ramp(t, n, m) == [t] + (x + y) by {
      if t + 1 == m {
        RampUp(0, n - 1, m);
        assert x + y == y;
      } else {
        RampOver(t + 1, n - 1, m);
      }
    }
    RangeCons(t, m);
    assert [t] + (x + y) == ([t] + x) + y;
  }

  lemma RampRotates(t: nat, n: nat, m: nat)
    requires t < m && n <= m
    ensures Ramp(t, n, m) == if t + n <= m then Range(t, t + n) else Range(t, m) + Range(0, t + n - m)
  {
    if t + n <= m { RampUp(t, n, m); } else { RampOver(t, n, m); }
  }

  /** As long as the counter does not wrap. */
  lemma {:induction false} SteppedStraight(c: nat, t: nat, n: nat, big: nat, m: nat)
    requires c + n <= big && t < m
    ensures Stepped(c, t, n, big, m) == Ramp(t, n, m)
    decreases n
  {
    if n == 1 {
      assert Stepped(c, t, 1, big, m) == [t] + [] == Ramp(t, 1, m);
    } else if n > 1 {
      SteppedStraight(c + 1, NextTarget(t, m), n - 1, big, m);
    }
  }

  lemma {:induction false} SteppedDividing(c: nat, n: nat, big: nat, m: nat)
    requires c < big && m > 0 && big % m == 0
    ensures Stepped(c, c % m, n, big, m) == Ramp(c % m, n, m)
    decreases n
  {
    if n > 0 {
      ModNext(c, m);
      ModZero(m);
      SteppedDividing(NextCounter(c, big), n - 1, big, m);
    }
  }

  /** The counter wraps after `j` more calls. */
  lemma {:induction false} SteppedWraps(c: nat, t: nat, j: nat, n: nat, big: nat, m: nat)
    requires 0 < j <= n && c + j == big && t + j <= m
    ensures Stepped(c, t, n, big, m) == Range(t, t + j) + Stepped(0, 0, n - j, big, m)
    decreases j
  {
    var rest := Stepped(0, 0, n - j, big, m);
    if j == 1 {
      assert Range(t, t + 1) == [t];
    } else {
      SteppedWraps(c + 1, t + 1, j - 1, n - 1, big, m);
      RangeCons(t, t + j);
      var x := Range(t + 1, t + j);
      assert [t] + (x + rest) == ([t] + x) + rest;
    }
  }

  // ----- fairness -----

  lemma FairRunOf(ws: seq<nat>, c: nat, big: nat, i: nat)
    requires i < |ws| && 0 < Sum(ws) && c < big && (c + Sum(ws) <= big || big % Sum(ws) == 0)
    ensures Hits(ws, RunTargets(c, Sum(ws), big, Sum(ws)), i) == ws[i]
  {
    var m := Sum(ws);
    var t := c % m;
    RunIsStepped(c, m, big, m);
    if c + m <= big { SteppedStraight(c, t, m, big, m); } else { SteppedDividing(c, m, big, m); }
    RampRotates(t, m, m);
    assert t == 0 ==> Range(0, m) + Range(0, 0) == Range(0, m);
    HitsOfRotation(ws, t, i);
  }

  /**
   Weighted fairness: any run of as many calls of `Get` as the total weight, from any counter value from which it does not
   wrap, hands out entry `i` exactly `ws[i]` times.
   */
  lemma FairRun(ws: seq<nat>, c: nat, i: nat)
    requires i < |ws| && 0 < Sum(ws) && c + Sum(ws) <= COUNTERS
    ensures Hits(ws, RunTargets(c, Sum(ws), COUNTERS, Sum(ws)), i) == ws[i]
  {
    FairRunOf(ws, c, COUNTERS, i);
  }

  lemma SteppedAround(c: nat, r: nat, big: nat, m: nat)
    requires 0 < r < m && c + r == big && m <= big
    ensures Stepped(c, 0, m, big, m) == Range(0, r) + Range(0, m - r)
  {
    SteppedWraps(c, 0, r, m, big, m);
    SteppedStraight(0, 0, m - r, big, m);
    RampRotates(0, m - r, m);
  }

  /** The run that begins at the last multiple of the total before the wrap. */
  lemma WrappingRun(big: nat, m: nat)
    requires 0 < m <= big && big % m != 0
    ensures var r := big % m; RunTargets(big - r, m, big, m) == Range(0, r) + Range(0, m - r)
  {
    ModFloor(big, m);
    RunIsStepped(big - big % m, m, big, m);
    SteppedAround(big - big % m, big % m, big, m);
  }

  /** When the total does not divide the counter's range, the run that straddles the wrap is unfair to the last entry. */
  lemma UnfairAtWrap(ws: seq<nat>, big: nat) returns (start: nat)
    requires 0 < Sum(ws) <= big && big % Sum(ws) != 0
    requires |ws| >= 2 && ws[0] >= 1 && ws[|ws| - 1] >= 1
    ensures start < big && Hits(ws, RunTargets(start, Sum(ws), big, Sum(ws)), |ws| - 1) != ws[|ws| - 1]
  {
    var r := big % Sum(ws);
    ModFloor(big, Sum(ws));
    WrappingRun(big, Sum(ws));
    Lopsided(ws, r);
    start := big - r;
  }

  /** Two partial rounds that start at target 0 do not make up for a full one. */
  lemma Lopsided(ws: seq<nat>, r: nat)
    requires 0 < r < Sum(ws) && |ws| >= 2 && ws[0] >= 1 && ws[|ws| - 1] >= 1
    ensures Below(Range(0, r) + Range(0, Sum(ws) - r), Sum(ws))
    ensures Hits(ws, Range(0, r) + Range(0, Sum(ws) - r), |ws| - 1) != ws[|ws| - 1]
  {
    var a, b := Range(0, r), Range(0, Sum(ws) - r);
    assert Hits(ws, a + b, |ws| - 1) == Hits(ws, a, |ws| - 1) + Hits(ws, b, |ws| - 1) by { HitsAppend(ws, a, b, |ws| - 1); }
    HitsOfLast(ws, r);
    HitsOfLast(ws, Sum(ws) - r);
    FirstCounts(ws);
    NotMadeUp(Sum(ws[..|ws| - 1]), ws[|ws| - 1], r);
  }

  lemma NotMadeUp(before: nat, w: nat, r: nat)
    requires before >= 1 && w >= 1 && 0 < r < before + w
    ensures (if r <= before then 0 else r - before) + (if before + w - r <= before then 0 else w - r) != w
  {
  }

  lemma HitsOfLast(ws: seq<nat>, n: nat)
    requires ws != [] && n <= Sum(ws)
    ensures Sum(ws) == Sum(ws[..|ws| - 1]) + ws[|ws| - 1]
    ensures Hits(ws, Range(0, n), |ws| - 1) == if n <= Sum(ws[..|ws| - 1]) then 0 else n - Sum(ws[..|ws| - 1])
  {
    HitsBelow(ws, n, |ws| - 1);
  }

  lemma FirstCounts(ws: seq<nat>)
    requires |ws| >= 2 && ws[0] >= 1
    ensures Sum(ws[..|ws| - 1]) >= 1
  {
    SumSnoc(ws, 0);
    SumMonotone(ws, 1, |ws| - 1);
  }

  ghost predicate AlwaysFair(ws: seq<nat>, big: nat)
    requires 0 < Sum(ws)
  {
    forall start: nat, i: nat :: start < big && i < |ws| ==> Hits(ws, RunTargets(start, Sum(ws), big, Sum(ws)), i) == ws[i]
  }

  lemma {:induction false} OneEntry(ws: seq<nat>, targets: seq<nat>)
    requires |ws| == 1 && Below(targets, Sum(ws))
    ensures Hits(ws, targets, 0) == |targets|
  {
    if targets != [] { OneEntry(ws, targets[..|targets| - 1]); }
  }

  lemma FairForeverOf(ws: seq<nat>, big: nat)
    requires 0 < Sum(ws) <= big && forall i :: 0 <= i < |ws| ==> ws[i] >= 1
    ensures AlwaysFair(ws, big) <==> big % Sum(ws) == 0 || |ws| == 1
  {
    var m := Sum(ws);
    if big % m == 0 || |ws| == 1 {
      forall start: nat, i: nat | start < big && i < |ws| ensures Hits(ws, RunTargets(start, m, big, m), i) == ws[i] {
        if big % m == 0 {
          FairRunOf(ws, start, big, i);
        } else {
          OneEntry(ws, RunTargets(start, m, big, m));
          assert ws[..0] == [];
        }
      }
    } else {
      var start := UnfairAtWrap(ws, big);
    }
  }

  /** Every run is fair, wrapping ones included, exactly when the total divides 2^32 or there is one entry. */
  lemma FairForeverIff(ws: seq<nat>)
    requires 0 < Sum(ws) <= COUNTERS && forall i :: 0 <= i < |ws| ==> ws[i] >= 1
    ensures AlwaysFair(ws, COUNTERS) <==> COUNTERS % Sum(ws) == 0 || |ws| == 1
  {
    FairForeverOf(ws, COUNTERS);
  }

  // ----- what callers get -----

  /** The addresses that a run of targets hands out, entry `i` having the address `addrs[i]`. */
  function Addresses(addrs: seq<string>, ws: seq<nat>, targets: seq<nat>): (r: seq<string>)
    requires |addrs| == |ws| && Below(targets, Sum(ws))
    ensures |r| == |targets| && forall k :: 0 <= k < |r| ==> r[k] == addrs[Pick(ws, targets[k])]
  {
    seq(|targets|, k requires 0 <= k < |targets| => addrs[Pick(ws, targets[k])])
  }

  function Count(served: seq<string>, ip: string): nat {
    if served == [] then 0 else Count(served[..|served| - 1], ip) + if served[|served| - 1] == ip then 1 else 0
  }

  /** The weights of the first `k` entries with that address. */
  function WeightOf(addrs: seq<string>, ws: seq<nat>, ip: string, k: nat): nat
    requires k <= |addrs| == |ws|
  {
    if k == 0 then 0 else WeightOf(addrs, ws, ip, k - 1) + if addrs[k - 1] == ip then ws[k - 1] else 0
  }

  /** The targets that fall to the first `k` entries with that address. */
  function HitsOn(addrs: seq<string>, ws: seq<nat>, targets: seq<nat>, ip: string, k: nat): nat
    requires k <= |addrs| == |ws| && Below(targets, Sum(ws))
    decreases k
  {
    if k == 0 then 0 else HitsOn(addrs, ws, targets, ip, k - 1) + if addrs[k - 1] == ip then Hits(ws, targets, k - 1) else 0
  }

  lemma {:induction false} HitsOnNothing(addrs: seq<string>, ws: seq<nat>, ip: string, k: nat)
    requires k <= |addrs| == |ws|
    ensures HitsOn(addrs, ws, [], ip, k) == 0
    decreases k
  {
    if k > 0 { HitsOnNothing(addrs, ws, ip, k - 1); }
  }

  lemma {:induction false} HitsOnSnoc(addrs: seq<string>, ws: seq<nat>, targets: seq<nat>, t: nat, ip: string, k: nat)
    requires k <= |addrs| == |ws| && Below(targets, Sum(ws)) && t < Sum(ws)
    ensures Below(targets + [t], Sum(ws))
    ensures HitsOn(addrs, ws, targets + [t], ip, k)
            == HitsOn(addrs, ws, targets, ip, k) + if Pick(ws, t) < k && addrs[Pick(ws, t)] == ip then 1 else 0
    decreases k
  {
    if k > 0 {
      HitsOnSnoc(addrs, ws, targets, t, ip, k - 1);
      HitsSnoc(ws, targets, t, k - 1);
    }
  }

  /** Counting what is handed out is counting targets. */
  lemma {:induction false} CountIsHits(addrs: seq<string>, ws: seq<nat>, targets: seq<nat>, ip: string)
    requires |addrs| == |ws| && Below(targets, Sum(ws))
    ensures Count(Addresses(addrs, ws, targets), ip) == HitsOn(addrs, ws, targets, ip, |ws|)
    decreases |targets|
  {
    if targets == [] {
      HitsOnNothing(addrs, ws, ip, |ws|);
    } else {
      var n := |targets| - 1;
      var init, t := targets[..n], targets[n];
      CountIsHits(addrs, ws, init, ip);
      HitsOnSnoc(addrs, ws, init, t, ip, |ws|);
      assert init + [t] == targets;
      assert Addresses(addrs, ws, targets) == Addresses(addrs, ws, init) + [addrs[Pick(ws, t)]];
      CountSnoc(Addresses(addrs, ws, init), addrs[Pick(ws, t)], ip);
    }
  }

  lemma CountSnoc(served: seq<string>, last: string, ip: string)
    ensures Count(served + [last], ip) == Count(served, ip) + if last == ip then 1 else 0
  {
    assert (served + [last])[..|served|] == served;
  }

  lemma {:induction false} FairHits(addrs: seq<string>, ws: seq<nat>, c: nat, ip: string, k: nat)
    requires k <= |addrs| == |ws| && 0 < Sum(ws) && c + Sum(ws) <= COUNTERS
    ensures HitsOn(addrs, ws, RunTargets(c, Sum(ws), COUNTERS, Sum(ws)), ip, k) == WeightOf(addrs, ws, ip, k)
    decreases k
  {
    if k > 0 {
      FairHits(addrs, ws, c, ip, k - 1);
      FairRun(ws, c, k - 1);
    }
  }

  /** Fairness as callers see it: every address comes back as often as its entries weigh. */
  lemma FairRound(addrs: seq<string>, ws: seq<nat>, c: nat, ip: string)
    requires |addrs| == |ws| && 0 < Sum(ws) && c + Sum(ws) <= COUNTERS
    ensures Count(Calls(addrs, ws, c, Sum(ws)), ip) == WeightOf(addrs, ws, ip, |ws|)
  {
    CountIsHits(addrs, ws, RunTargets(c, Sum(ws), COUNTERS, Sum(ws)), ip);
    FairHits(addrs, ws, c, ip, |ws|);
  }

  /** What `n` calls of `Get` hand out, the counter standing at `c`. */
  function Calls(addrs: seq<string>, ws: seq<nat>, c: nat, n: nat): (r: seq<string>)
    requires |addrs| == |ws| && 0 < Sum(ws)
    ensures |r| == n
  {
    Addresses(addrs, ws, RunTargets(c, n, COUNTERS, Sum(ws)))
  }

  lemma CallsCons(addrs: seq<string>, ws: seq<nat>, c: nat, n: nat)
    requires |addrs| == |ws| && 0 < Sum(ws) && n > 0
    ensures Calls(addrs, ws, c, n) == [addrs[Pick(ws, c % Sum(ws))]] + Calls(addrs, ws, NextCounter(c, COUNTERS), n - 1)
  {
  }

  function Named(ips: seq<string>, indexes: seq<nat>): (r: seq<string>)
    requires forall i :: 0 <= i < |indexes| ==> indexes[i] < |ips|
    ensures |r| == |indexes| && forall i :: 0 <= i < |r| ==> r[i] == ips[indexes[i]]
  {
    seq(|indexes|, i requires 0 <= i < |indexes| => ips[indexes[i]])
  }

  // ----- the pool -----

  class IPPool {
    const ips: seq<string>
    const topIPCount: nat
    const bestIndexes: array<nat>
    const bestWeights: array<nat>
    var totalWeight: nat
    var curValidIPs: nat
    var counter: nat

    /** What holds after any run of scans and gets. */
    ghost predicate Valid()
      reads this, bestIndexes, bestWeights
    {
      && 1 <= topIPCount <= 255
      && bestIndexes != bestWeights
      && bestIndexes.Length == topIPCount && bestWeights.Length == topIPCount
      && curValidIPs <= topIPCount
      && counter < COUNTERS
      && (forall i :: 0 <= i < curValidIPs ==> bestIndexes[i] < |ips| && 1 <= bestWeights[i] <= MAX_WEIGHT)
      && (forall i, j :: 0 <= i < j < curValidIPs ==> bestIndexes[i] != bestIndexes[j])
      && (forall i :: curValidIPs <= i < topIPCount ==> bestWeights[i] == 0)
      && totalWeight == Sum(bestWeights[..curValidIPs])
    }

    constructor (ips: seq<string>, topIPCount: nat)
      requires 1 <= topIPCount <= 255
      ensures Valid() && curValidIPs == 0 && this.ips == ips && this.topIPCount == topIPCount
    {
      this.ips, this.topIPCount := ips, topIPCount;
      bestIndexes := new nat[topIPCount](_ => 0);
      bestWeights := new nat[topIPCount](_ => 0);
      totalWeight, curValidIPs, counter := 0, 0, 0;
    }

    /** Stores the leading results and their weights. */
    method StoreTop(sorted: seq<Probe>) returns (validCount: nat, total: nat)
      requires topIPCount == bestIndexes.Length == bestWeights.Length && bestIndexes != bestWeights
      requires ResultsOk(sorted, |ips|)
      modifies bestIndexes, bestWeights
      ensures validCount == if topIPCount < |sorted| then topIPCount else |sorted|
      ensures forall j :: 0 <= j < validCount ==> bestIndexes[j] == sorted[j].ip && Weighs(sorted[j], bestWeights[j])
      ensures total == Sum(bestWeights[..validCount])
    {
      total, validCount := 0, 0;
      while validCount < topIPCount && validCount < |sorted|
        invariant validCount <= topIPCount && validCount <= |sorted|
        invariant forall j :: 0 <= j < validCount ==> bestIndexes[j] == sorted[j].ip && Weighs(sorted[j], bestWeights[j])
        invariant total == Sum(bestWeights[..validCount])
      {
        var w := Weight(sorted[validCount]);
        WeightIsLargest(sorted[validCount]);
        ghost var before := bestWeights[..validCount];
        bestIndexes[validCount] := sorted[validCount].ip;
        bestWeights[validCount] := w;
        assert bestWeights[..validCount + 1][..validCount] == before;
        total := total + w;
        validCount := validCount + 1;
      }
    }

    method ClearFrom(validCount: nat)
      requires validCount <= bestWeights.Length
      modifies bestWeights
      ensures bestWeights[..validCount] == old(bestWeights[..validCount])
      ensures forall j :: validCount <= j < bestWeights.Length ==> bestWeights[j] == 0
    {
      for i := validCount to bestWeights.Length
        invariant bestWeights[..validCount] == old(bestWeights[..validCount])
        invariant forall j :: validCount <= j < i ==> bestWeights[j] == 0
      {
        bestWeights[i] := 0;
      }
    }

    /** `updateBest`: the first results in order replace the pool; no results change nothing. */
    method UpdateBest(results: seq<Probe>)
      requires Valid() && ResultsOk(results, |ips|)
      modifies this`totalWeight, this`curValidIPs, bestIndexes, bestWeights
      ensures Valid()
      ensures results == [] ==> curValidIPs == old(curValidIPs) && totalWeight == old(totalWeight)
                                && bestIndexes[..] == old(bestIndexes[..]) && bestWeights[..] == old(bestWeights[..])
      ensures results != [] ==>
                && ResultsOk(StableSort(results), |ips|) && |StableSort(results)| == |results|
                && curValidIPs == (if topIPCount < |results| then topIPCount else |results|)
                && forall i :: 0 <= i < curValidIPs ==>
                     bestIndexes[i] == StableSort(results)[i].ip && Weighs(StableSort(results)[i], bestWeights[i])
    {
      if |results| == 0 { return; }
      var sorted := StableSort(results);
      SortKeepsResults(results, |ips|);
      var validCount, total := StoreTop(sorted);
      ghost var chosen := bestWeights[..validCount];
      assert forall j :: 0 <= j < validCount ==> Weighs(sorted[j], chosen[j]);
      ClearFrom(validCount);
      assert forall j :: 0 <= j < validCount ==> bestWeights[j] == bestWeights[..validCount][j] == chosen[j];
      curValidIPs, totalWeight := validCount, total;
    }

    /** `scan`: results arrive in any order; addresses that never answered are dropped. */
    method Scan(arrivals: seq<Probe>)
      requires Valid() && ResultsOk(arrivals, |ips|)
      modifies this`totalWeight, this`curValidIPs, bestIndexes, bestWeights
      ensures Valid()
      ensures var rs := Reachable(arrivals);
              && (rs == [] ==> curValidIPs == old(curValidIPs) && totalWeight == old(totalWeight)
                               && bestIndexes[..] == old(bestIndexes[..]) && bestWeights[..] == old(bestWeights[..]))
              && (rs != [] ==>
                    && ResultsOk(StableSort(rs), |ips|) && |StableSort(rs)| == |rs|
                    && curValidIPs == (if topIPCount < |rs| then topIPCount else |rs|)
                    && forall i :: 0 <= i < curValidIPs ==>
                         bestIndexes[i] == StableSort(rs)[i].ip && Weighs(StableSort(rs)[i], bestWeights[i]))
    {
      var valid := [];
      for i := 0 to |arrivals|
        invariant valid == Reachable(arrivals[..i])
      {
        assert arrivals[..i + 1][..i] == arrivals[..i];
        if arrivals[i].loss < 1.0 { valid := valid + [arrivals[i]]; }
      }
      assert arrivals[..|arrivals|] == arrivals;
      ReachableOk(arrivals, |ips|);
      UpdateBest(valid);
    }

    /** Accumulates weights until they pass the target; falling off the end is impossible. */
    method Select(target: nat) returns (i: nat)
      requires Valid() && target < totalWeight
      ensures i == Pick(bestWeights[..curValidIPs], target) < curValidIPs
    {
      ghost var ws := bestWeights[..curValidIPs];
      assert ws[..curValidIPs] == ws;
      var acc := 0;
      for k := 0 to curValidIPs
        invariant acc == Sum(ws[..k]) && acc <= target
      {
        SumSnoc(ws, k);
        acc := acc + bestWeights[k];
        if acc > target {
          PickIs(ws, target, k);
          return k;
        }
      }
      assert false;
    }

    /** `Get`: the entry picked by the counter, which advances by one. */
    method Get() returns (ip: string)
      requires Valid()
      modifies this`counter
      ensures Valid()
      ensures curValidIPs == 0 ==> ip == "" && counter == old(counter)
      ensures curValidIPs > 0 ==>
                && 0 < totalWeight
                && counter == NextCounter(old(counter), COUNTERS)
                && ip == ips[bestIndexes[Pick(bestWeights[..curValidIPs], old(counter) % totalWeight)]]
    {
      if curValidIPs == 0 { return ""; }
      assert totalWeight > 0 by { SumBounds(bestWeights[..curValidIPs]); }
      var target := counter % totalWeight;
      counter := if counter + 1 == COUNTERS then 0 else counter + 1;
      var i := Select(target);
      ip := ips[bestIndexes[i]];
    }

    /** The addresses of the valid entries. */
    ghost function Entries(): (r: seq<string>)
      requires Valid()
      reads this, bestIndexes, bestWeights
      ensures |r| == curValidIPs && forall i :: 0 <= i < curValidIPs ==> r[i] == ips[bestIndexes[i]]
    {
      Named(ips, bestIndexes[..curValidIPs])
    }

    /** The next of `n` calls. */
    method GetNext(ghost addrs: seq<string>, ghost ws: seq<nat>, ghost n: nat) returns (ip: string)
      requires Valid() && curValidIPs > 0 && n > 0 && addrs == Entries() && ws == bestWeights[..curValidIPs] && 0 < Sum(ws)
      modifies this`counter
      ensures Valid() && Calls(addrs, ws, old(counter), n) == [ip] + Calls(addrs, ws, counter, n - 1)
    {
      CallsCons(addrs, ws, counter, n);
      ip := Get();
    }

    /** Consecutive calls of `Get`. */
    method GetMany(n: nat) returns (served: seq<string>)
      requires Valid() && curValidIPs > 0
      modifies this`counter
      ensures Valid() && 0 < Sum(bestWeights[..curValidIPs])
      ensures served == Calls(Entries(), bestWeights[..curValidIPs], old(counter), n)
    {
      ghost var ws, addrs := bestWeights[..curValidIPs], Entries();
      SumBounds(ws);
      served := [];
      ghost var goal := Calls(addrs, ws, counter, n);
      for k := 0 to n
        invariant Valid() && served + Calls(addrs, ws, counter, n - k) == goal
      {
        var ip := GetNext(addrs, ws, n - k);
        ghost var rest := Calls(addrs, ws, counter, n - k - 1);
        assert (served + [ip]) + rest == served + ([ip] + rest);
        served := served + [ip];
      }
    }

    /** As many calls as the total weight, before the counter wraps: every address comes back as often as it weighs. */
    method Round() returns (served: seq<string>)
      requires Valid() && curValidIPs > 0 && counter + totalWeight <= COUNTERS
      modifies this`counter
      ensures Valid() && |served| == totalWeight
      ensures forall ip :: Count(served, ip) == WeightOf(Entries(), bestWeights[..curValidIPs], ip, curValidIPs)
    {
      ghost var c := counter;
      served := GetMany(totalWeight);
      forall ip ensures Count(served, ip) == WeightOf(Entries(), bestWeights[..curValidIPs], ip, curValidIPs) {
        FairRound(Entries(), bestWeights[..curValidIPs], c, ip);
      }
    }
  }

  function Reachable(rs: seq<Probe>): seq<Probe> {
    if rs == [] then [] else Reachable(rs[..|rs| - 1]) + if rs[|rs| - 1].loss < 1.0 then [rs[|rs| - 1]] else []
  }

  lemma {:induction false} ReachableAre(rs: seq<Probe>)
    ensures forall x :: x in Reachable(rs) <==> x in rs && x.loss < 1.0
  {
    if rs != [] {
      ReachableAre(rs[..|rs| - 1]);
      assert rs == rs[..|rs| - 1] + [rs[|rs| - 1]];
    }
  }

  lemma {:induction false} ReachableOk(rs: seq<Probe>, n: nat)
    requires ResultsOk(rs, n)
    ensures ResultsOk(Reachable(rs), n)
    ensures forall x :: x in Reachable(rs) <==> x in rs && x.loss < 1.0
  {
    ReachableAre(rs);
    if rs != [] {
      var init, x := rs[..|rs| - 1], rs[|rs| - 1];
      ReachableOk(init, n);
      assert forall y :: y in Reachable(init) ==> y in init && y.ip != x.ip;
    }
  }
}
