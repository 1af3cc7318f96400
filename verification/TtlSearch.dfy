/** The binary search for the smallest TTL with which a destination can be dialled. */
module TtlSearch {
  import opened Arith

  datatype Dial = Connected | TimedOut | OtherError

  datatype Round = Reached | Missed | Fatal

  /** Dialling `ttl`, attempts `k` and later: the first that does not time out decides. */
  function RoundFrom(dial: (nat, nat) -> Dial, ttl: nat, k: nat, attempts: nat): Round
    decreases attempts - k
  {
    if k >= attempts then Missed
    else match dial(ttl, k)
      case Connected => Reached
      case OtherError => Fatal
      case TimedOut => RoundFrom(dial, ttl, k + 1, attempts)
  }

  function Probe(dial: (nat, nat) -> Dial, ttl: nat, attempts: nat): Round {
    RoundFrom(dial, ttl, 0, attempts)
  }

  /** The first `k` attempts time out. */
  predicate TimesOutUntil(dial: (nat, nat) -> Dial, ttl: nat, k: nat) {
    forall j :: 0 <= j < k ==> dial(ttl, j) == TimedOut
  }

  lemma {:induction false} RoundFromIs(dial: (nat, nat) -> Dial, ttl: nat, k: nat, attempts: nat)
    requires k <= attempts && TimesOutUntil(dial, ttl, k)
    ensures var r := RoundFrom(dial, ttl, k, attempts);
            && (r.Reached? <==> exists i :: 0 <= i < attempts && TimesOutUntil(dial, ttl, i) && dial(ttl, i) == Connected)
            && (r.Fatal? <==> exists i :: 0 <= i < attempts && TimesOutUntil(dial, ttl, i) && dial(ttl, i) == OtherError)
            && (r.Missed? <==> TimesOutUntil(dial, ttl, attempts))
    decreases attempts - k
  {
    if k < attempts && dial(ttl, k) == TimedOut { RoundFromIs(dial, ttl, k + 1, attempts); }
  }

  /** A round is decided by the first attempt that does not time out, and missed if all of them do. */
  lemma ProbeIs(dial: (nat, nat) -> Dial, ttl: nat, attempts: nat)
    ensures var r := Probe(dial, ttl, attempts);
            && (r.Reached? <==> exists i :: 0 <= i < attempts && TimesOutUntil(dial, ttl, i) && dial(ttl, i) == Connected)
            && (r.Fatal? <==> exists i :: 0 <= i < attempts && TimesOutUntil(dial, ttl, i) && dial(ttl, i) == OtherError)
            && (r.Missed? <==> TimesOutUntil(dial, ttl, attempts))
  {
    RoundFromIs(dial, ttl, 0, attempts);
  }

  datatype Outcome = Found(ttl: nat) | NotFound | DialError(ttl: nat)

  /** Reachability grows with the TTL. */
  ghost predicate Monotone(dial: (nat, nat) -> Dial, maxTTL: int, attempts: nat) {
    forall t: nat, u: nat :: 1 <= t <= u <= maxTTL && Probe(dial, t, attempts).Reached? ==> Probe(dial, u, attempts).Reached?
  }

  method Attempt(dial: (nat, nat) -> Dial, ttl: nat, attempts: nat) returns (r: Round)
    ensures r == Probe(dial, ttl, attempts)
  {
    for k := 0 to attempts
      invariant RoundFrom(dial, ttl, k, attempts) == Probe(dial, ttl, attempts)
    {
      match dial(ttl, k) {
        case Connected => return Reached;
        case OtherError => return Fatal;
        case TimedOut =>
      }
    }
    return Missed;
  }

  /**
   `detectMinimalReachableTTL`.  Without assuming anything of the network, a returned TTL was reached and the one below
   it was not; on a network where reachability grows with the TTL it is the minimum.  The search takes at most
   floor(log2(maxTTL)) + 1 rounds.
   */
  method DetectMinimalReachableTTL(dial: (nat, nat) -> Dial, maxTTL: int, attempts: nat)
    returns (r: Outcome, ghost rounds: nat)
    ensures r.Found? ==> && 1 <= r.ttl <= maxTTL && Probe(dial, r.ttl, attempts).Reached?
                         && (r.ttl > 1 ==> Probe(dial, r.ttl - 1, attempts).Missed?)
    ensures r.NotFound? ==> maxTTL < 1 || Probe(dial, maxTTL, attempts).Missed?
    ensures r.DialError? ==> 1 <= r.ttl <= maxTTL && Probe(dial, r.ttl, attempts).Fatal?
    ensures Monotone(dial, maxTTL, attempts) && !r.DialError? ==>
              forall t: nat :: 1 <= t <= maxTTL ==> (Probe(dial, t, attempts).Reached? <==> r.Found? && r.ttl <= t)
    ensures rounds == 0 || Pow2(rounds - 1) <= maxTTL
  {
    var low, high := 1, maxTTL;
    r, rounds := NotFound, 0;
    while low <= high
      invariant 1 <= low && high <= maxTTL && (low > 1 ==> Probe(dial, low - 1, attempts).Missed?)
      invariant maxTTL >= 1 ==> 0 <= high && low <= high + 1
      invariant r.NotFound? ==> high == maxTTL
      invariant !r.NotFound? ==> 0 <= high && r == Found(high + 1) && high + 1 <= maxTTL && Probe(dial, high + 1, attempts).Reached?
      invariant rounds == 0 || Pow2(rounds - 1) <= maxTTL
      invariant low <= high ==> (high - low + 1) * Pow2(rounds) <= maxTTL
    {
      var mid := (low + high) / 2;
      var round := Attempt(dial, mid, attempts);
      Halving(high - low + 1, high - mid, Pow2(rounds));
      Halving(high - low + 1, mid - low, Pow2(rounds));
      rounds := rounds + 1;
      match round {
        case Fatal => return DialError(mid), rounds;
        case Reached =>
          r := Found(mid);
          high := mid - 1;
        case Missed =>
          low := mid + 1;
      }
    }
  }

  lemma Halving(n: int, half: int, p: nat)
    requires n >= 1 && 0 <= half <= n / 2
    ensures half * (2 * p) <= n * p && p <= n * p
  {
    assert half * 2 <= n;
    assert (half * 2) * p <= n * p;
  }
}
