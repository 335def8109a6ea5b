/** The wait loop's clock against a provider that may never answer: when the loop ends, and
    after how many rounds. */
module WaitLoop {
  import opened Decimal

  /** The addition in std::size_t that moves the clock on. */
  function Tick(elapsed: nat, cadenceMs: nat): nat {
    (elapsed + cadenceMs) % U64
  }

  /** The clock after k rounds. */
  function Elapsed(k: nat, cadenceMs: nat): nat {
    if k == 0 then 0 else Tick(Elapsed(k - 1, cadenceMs), cadenceMs)
  }

  /** timeoutMs / cadenceMs, rounded up. */
  function Rounds(timeoutMs: nat, cadenceMs: nat): nat
    requires cadenceMs > 0
  {
    (timeoutMs + cadenceMs - 1) / cadenceMs
  }

  // ----- products

  lemma {:induction false} Associate(a: int, b: int, c: int)
    ensures a * (b * c) == (a * b) * c
  {
  }

  lemma {:induction false} Swap(a: int, b: int)
    ensures a * b == b * a
  {
  }

  lemma {:induction false} Distribute(a: int, b: int, c: int)
    ensures a * (b + c) == a * b + a * c
  {
  }

  lemma {:induction false} AtLeastFactor(a: nat, b: nat)
    requires b > 0
    ensures a * b >= a
  {
  }

  lemma {:induction false} SameQuotient(d: nat, q: int, q': int, r: nat, r': nat)
    requires r < d && r' < d && d * q + r == d * q' + r'
    ensures q == q' && r == r'
  {
    Distribute(d, q, -q');
    if q > q' {
      AtLeastFactor(d, q - q');
    } else if q < q' {
      AtLeastFactor(d, q' - q);
      Distribute(d, q', -q);
    }
  }

  lemma {:induction false} Remainder(a: nat, d: nat, q: nat, r: nat)
    requires a == d * q + r && r < d
    ensures a % d == r
  {
    SameQuotient(d, a / d, q, a % d, r);
  }

  // ----- the clock

  lemma {:induction false} AddWraps(a: nat, c: nat)
    ensures (a % U64 + c) % U64 == (a + c) % U64
  {
    var q := a / U64;
    assert a + c == (a % U64 + c) + U64 * q;
  }

  lemma {:induction false} ElapsedWraps(k: nat, cadenceMs: nat)
    ensures Elapsed(k, cadenceMs) == (k * cadenceMs) % U64
  {
    if k > 0 {
      ElapsedWraps(k - 1, cadenceMs);
      assert k * cadenceMs == (k - 1) * cadenceMs + cadenceMs;
      AddWraps((k - 1) * cadenceMs, cadenceMs);
    }
  }

  /** The rounded-up number of cadences fits the counter. */
  predicate RoundsFit(timeoutMs: nat, cadenceMs: nat) {
    cadenceMs > 0 && Rounds(timeoutMs, cadenceMs) * cadenceMs < U64
  }

  lemma {:induction false} RoundsBounds(timeoutMs: nat, cadenceMs: nat)
    requires cadenceMs > 0
    ensures timeoutMs <= Rounds(timeoutMs, cadenceMs) * cadenceMs < timeoutMs + cadenceMs
  {
  }

  lemma {:induction false} MultipleBelow(k: nat, n: nat, c: nat)
    requires k < n
    ensures k * c <= n * c - c
  {
    Distribute(c, k + 1, n - k - 1);
    Distribute(c, k, 1);
    Swap(k, c);
    Swap(n, c);
  }

  lemma {:induction false} NotWrapped(p: nat, q: nat, c: nat, t: nat)
    requires p <= q - c && q < t + c && t < U64
    ensures p % U64 < t
  {
  }

  lemma {:induction false} BeforeLastRound(timeoutMs: nat, cadenceMs: nat, k: nat)
    requires 0 < cadenceMs && timeoutMs < U64 && k < Rounds(timeoutMs, cadenceMs)
    ensures Elapsed(k, cadenceMs) < timeoutMs
  {
    hide *;
    var n := Rounds(timeoutMs, cadenceMs);
    RoundsBounds(timeoutMs, cadenceMs);
    MultipleBelow(k, n, cadenceMs);
    ElapsedWraps(k, cadenceMs);
    NotWrapped(k * cadenceMs, n * cadenceMs, cadenceMs, timeoutMs);
  }

  lemma {:induction false} AtLastRound(timeoutMs: nat, cadenceMs: nat)
    requires 0 < cadenceMs < U64 && timeoutMs < U64
    ensures var n := Rounds(timeoutMs, cadenceMs);
            Elapsed(n, cadenceMs) >= timeoutMs <==> n * cadenceMs < U64
  {
    var n := Rounds(timeoutMs, cadenceMs);
    RoundsBounds(timeoutMs, cadenceMs);
    ElapsedWraps(n, cadenceMs);
    if n * cadenceMs >= U64 {
      assert (n * cadenceMs) % U64 == n * cadenceMs - U64;
    }
  }

  /** Unanswered, the loop ends within the rounded-up number of rounds exactly when that many
      cadences still fit the counter. */
  lemma {:induction false} EndsInTime(timeoutMs: nat, cadenceMs: nat)
    requires 0 < cadenceMs < U64 && timeoutMs < U64
    ensures var n := Rounds(timeoutMs, cadenceMs);
            (exists k | 0 <= k <= n :: Elapsed(k, cadenceMs) >= timeoutMs) <==> n * cadenceMs < U64
  {
    var n := Rounds(timeoutMs, cadenceMs);
    AtLastRound(timeoutMs, cadenceMs);
    forall k | 0 <= k < n ensures Elapsed(k, cadenceMs) < timeoutMs {
      BeforeLastRound(timeoutMs, cadenceMs, k);
    }
  }

  // ----- whether it ever ends

  function Pow2(j: nat): (p: nat)
    ensures p > 0
  {
    if j == 0 then 1 else 2 * Pow2(j - 1)
  }

  /** How often a positive number can be halved. */
  function Twos(c: nat): nat
    requires c > 0
  {
    if c % 2 == 1 then 0 else 1 + Twos(c / 2)
  }

  /** The largest power of two that divides the cadence; the whole range for a cadence of 0. */
  function Gap(cadenceMs: nat): nat {
    if cadenceMs == 0 then U64 else Pow2(Twos(cadenceMs))
  }

  lemma {:induction false} Pow2Add(i: nat, j: nat)
    ensures Pow2(i + j) == Pow2(i) * Pow2(j)
  {
    if i > 0 {
      Pow2Add(i - 1, j);
      Associate(2, Pow2(i - 1), Pow2(j));
    }
  }

  lemma {:induction false} Pow2Sixteen()
    ensures Pow2(16) == 0x1_0000
  {
    assert Pow2(8) == 0x100;
    Pow2Add(8, 8);
  }

  lemma {:induction false} Pow2Range()
    ensures Pow2(64) == U64
  {
    hide Pow2;
    Pow2Sixteen();
    Pow2Add(16, 16);
    Pow2Add(32, 32);
  }

  lemma {:induction false} OddPart(c: nat) returns (m: nat)
    requires c > 0
    ensures m % 2 == 1 && c == Pow2(Twos(c)) * m
  {
    if c % 2 == 1 {
      m := c;
    } else {
      m := OddPart(c / 2);
      Associate(2, Pow2(Twos(c / 2)), m);
    }
  }

  lemma {:induction false} Pow2Grows(i: nat, j: nat)
    requires i <= j
    ensures Pow2(i) <= Pow2(j)
    decreases j
  {
    if i < j {
      Pow2Grows(i, j - 1);
    }
  }

  /** The gap divides the range of the counter. */
  lemma {:induction false} GapDividesRange(c: nat) returns (m: nat, j: nat)
    requires 0 < c < U64
    ensures m % 2 == 1 && c == Gap(c) * m && U64 == Gap(c) * Pow2(j)
  {
    m := OddPart(c);
    Pow2Range();
    var v := Twos(c);
    AtLeastFactor(Pow2(v), m);
    if v >= 64 {
      Pow2Grows(64, v);
      assert false;
    }
    j := 64 - v;
    Pow2Add(v, j);
  }

  /** Modulo a power of two, minus one is a multiple of every odd number. */
  lemma {:induction false} MinusOne(m: nat, j: nat) returns (k: nat, q: nat)
    requires m % 2 == 1
    ensures k * m + 1 == q * Pow2(j)
  {
    if j == 0 {
      k, q := 0, 1;
    } else {
      k, q := MinusOne(m, j - 1);
      k, q := MinusOneStep(m, Pow2(j - 1), k, q);
    }
  }

  lemma {:induction false} MinusOneStep(m: nat, p: nat, k: nat, q: nat) returns (k': nat, q': nat)
    requires m % 2 == 1 && k * m + 1 == q * p
    ensures k' * m + 1 == q' * (2 * p)
  {
    Swap(k, m);
    Swap(p, q);
    if q % 2 == 0 {
      k', q' := k, q / 2;
      assert p * (2 * q') == m * k' + 1;
    } else {
      k', q' := k + p, (q + m) / 2;
      Distribute(m, k, p);
      Distribute(p, q, m);
      assert p * (2 * q') == m * k' + 1;
    }
    Associate(p, 2, q');
    Swap(p * 2, q');
    Swap(m, k');
  }

  /** A multiple of the gap is, modulo the range, at least a gap below the range. */
  lemma {:induction false} MultipleOfGap(x: nat, g: nat, n: nat)
    requires g > 0 && n > 0 && g * n == U64
    ensures (g * x) % U64 + g <= U64
  {
    var q, r := x / n, x % n;
    Associate(g, n, q);
    Distribute(g, n * q, r);
    Distribute(g, r, 1);
    BelowRange(g, r, n);
    Remainder(g * x, U64, q, g * r);
  }

  lemma {:induction false} BelowRange(g: nat, r: nat, n: nat)
    requires r < n
    ensures g * (r + 1) <= g * n
  {
    Distribute(g, r + 1, n - r - 1);
  }

  lemma {:induction false} TopProduct(k: nat, g: nat, m: nat, q: nat, n: nat)
    requires k * m + 1 == q * n
    ensures k * (g * m) + g == q * (g * n)
  {
    Associate(k, g, m);
    Associate(g, k, m);
    Distribute(g, k * m, 1);
    Associate(g, q, n);
    Associate(q, g, n);
  }

  lemma {:induction false} TopReading(x: nat, g: nat, q: nat)
    requires 0 < g <= U64 && x + g == q * U64
    ensures x % U64 == U64 - g
  {
    Remainder(x, U64, q - 1, U64 - g);
  }

  /** The clock reaches the last multiple of the gap below the range of the counter. */
  lemma {:induction false} ReachesTop(c: nat) returns (k: nat)
    requires 0 < c < U64
    ensures Elapsed(k, c) == U64 - Gap(c)
  {
    hide Elapsed, Gap, Pow2;
    var m, j := GapDividesRange(c);
    var q;
    k, q := MinusOne(m, j);
    TopProduct(k, Gap(c), m, q, Pow2(j));
    AtLeastFactor(Gap(c), Pow2(j));
    TopReading(k * c, Gap(c), q);
    ElapsedWraps(k, c);
  }

  lemma {:induction false} StaysBelowTop(k: nat, c: nat)
    requires 0 < c < U64
    ensures Elapsed(k, c) + Gap(c) <= U64
  {
    hide Elapsed, Gap, Pow2;
    var m, j := GapDividesRange(c);
    ElapsedWraps(k, c);
    Associate(k, Gap(c), m);
    Associate(Gap(c), k, m);
    MultipleOfGap(k * m, Gap(c), Pow2(j));
  }

  lemma {:induction false} NoCadenceStops(k: nat)
    ensures Elapsed(k, 0) == 0
  {
    if k > 0 {
      NoCadenceStops(k - 1);
    }
  }

  /** Unanswered, the loop ends exactly when the timeout is at most the highest reading of the
      clock, which is one gap below the range of the counter. */
  lemma {:induction false} EndsExactly(timeoutMs: nat, cadenceMs: nat)
    requires cadenceMs < U64
    ensures (exists k: nat :: Elapsed(k, cadenceMs) >= timeoutMs) <==> timeoutMs + Gap(cadenceMs) <= U64
  {
    if cadenceMs == 0 {
      assert Elapsed(0, 0) == 0;
      forall k: nat ensures Elapsed(k, cadenceMs) == 0 {
        NoCadenceStops(k);
      }
      assert timeoutMs == 0 ==> Elapsed(0, cadenceMs) >= timeoutMs;
      assert (exists k: nat :: Elapsed(k, cadenceMs) >= timeoutMs) ==> timeoutMs == 0;
    } else {
      forall k: nat ensures Elapsed(k, cadenceMs) + Gap(cadenceMs) <= U64 {
        StaysBelowTop(k, cadenceMs);
      }
      var top := ReachesTop(cadenceMs);
      assert timeoutMs + Gap(cadenceMs) <= U64 ==> Elapsed(top, cadenceMs) >= timeoutMs;
    }
  }

  /** With no cadence an unanswered wait with time to wait never ends. */
  lemma {:induction false} NoCadenceNeverEnds(timeoutMs: nat, k: nat)
    requires timeoutMs > 0
    ensures Elapsed(k, 0) < timeoutMs
  {
    EndsExactly(timeoutMs, 0);
  }

  /** With an odd cadence, such as the default of 25, every wait ends. */
  lemma {:induction false} OddCadenceEnds(timeoutMs: nat, cadenceMs: nat)
    requires timeoutMs < U64 && cadenceMs < U64 && cadenceMs % 2 == 1
    ensures exists k: nat :: Elapsed(k, cadenceMs) >= timeoutMs
  {
    EndsExactly(timeoutMs, cadenceMs);
  }

  /** A cadence that is a power of two is its own gap. */
  lemma {:induction false} GapOfPower(j: nat)
    ensures Gap(Pow2(j)) == Pow2(j)
  {
    if j > 0 {
      GapOfPower(j - 1);
      assert Pow2(j) / 2 == Pow2(j - 1);
    }
  }

  /** A cadence that divides the range of the counter takes the clock from its own last multiple
      back to 0: a wait for longer than that never ends unanswered. */
  lemma {:induction false} WrappedClockNeverEnds(timeoutMs: nat, j: nat, k: nat)
    requires j < 64 && timeoutMs + Pow2(j) > U64
    ensures Elapsed(k, Pow2(j)) < timeoutMs
  {
    Pow2Range();
    Pow2Strict(j, 64);
    GapOfPower(j);
    EndsExactly(timeoutMs, Pow2(j));
  }

  lemma {:induction false} Pow2Strict(i: nat, j: nat)
    requires i < j
    ensures Pow2(i) < Pow2(j)
  {
    Pow2Grows(i, j - 1);
  }

  // ----- the loop

  /** The first n rounds begin before the timeout and do not find the job done. */
  ghost predicate Unanswered(timeoutMs: nat, cadenceMs: nat, answered: nat -> bool, n: nat) {
    forall k | 0 <= k < n :: Elapsed(k, cadenceMs) < timeoutMs && !answered(k)
  }

  lemma {:induction false} RoundsTaken(timeoutMs: nat, cadenceMs: nat, answered: nat -> bool, n: nat)
    requires timeoutMs < U64 && cadenceMs < U64 && RoundsFit(timeoutMs, cadenceMs)
    requires Unanswered(timeoutMs, cadenceMs, answered, n)
    ensures n <= Rounds(timeoutMs, cadenceMs)
    ensures n == Rounds(timeoutMs, cadenceMs) <==> Elapsed(n, cadenceMs) >= timeoutMs
  {
    hide Elapsed, Rounds;
    AtLastRound(timeoutMs, cadenceMs);
    if n < Rounds(timeoutMs, cadenceMs) {
      BeforeLastRound(timeoutMs, cadenceMs, n);
    }
  }

  lemma {:induction false} OneMoreUnanswered(timeoutMs: nat, cadenceMs: nat, answered: nat -> bool, n: nat)
    requires Unanswered(timeoutMs, cadenceMs, answered, n)
    requires Elapsed(n, cadenceMs) < timeoutMs && !answered(n)
    ensures Unanswered(timeoutMs, cadenceMs, answered, n + 1)
    ensures Elapsed(n + 1, cadenceMs) == Tick(Elapsed(n, cadenceMs), cadenceMs)
  {
  }

  /** The round in which an answer or the timeout comes. */
  lemma {:induction false} SomeRoundEnds(timeoutMs: nat, cadenceMs: nat, answered: nat -> bool) returns (last: nat)
    requires cadenceMs < U64
    requires timeoutMs + Gap(cadenceMs) <= U64 || exists r: nat :: answered(r)
    ensures forall n: nat | Unanswered(timeoutMs, cadenceMs, answered, n) :: n <= last
  {
    hide Elapsed, Gap;
    if r: nat :| answered(r) {
      last := r;
    } else {
      EndsExactly(timeoutMs, cadenceMs);
      last :| Elapsed(last, cadenceMs) >= timeoutMs;
    }
  }

  /** answered(k) says whether the poll of round k finds the job done. The loop ends in the
      first round that does, or after the first reading of the clock at or past the timeout;
      within the rounded-up number of rounds if that many cadences fit the counter. */
  method Wait(timeoutMs: nat, cadenceMs: nat, answered: nat -> bool) returns (rounds: nat, finished: bool)
    requires timeoutMs < U64 && cadenceMs < U64
    requires timeoutMs + Gap(cadenceMs) <= U64 || exists r: nat :: answered(r)
    ensures finished ==> rounds > 0 && Unanswered(timeoutMs, cadenceMs, answered, rounds - 1)
                         && Elapsed(rounds - 1, cadenceMs) < timeoutMs && answered(rounds - 1)
    ensures !finished ==> Unanswered(timeoutMs, cadenceMs, answered, rounds) && Elapsed(rounds, cadenceMs) >= timeoutMs
    ensures RoundsFit(timeoutMs, cadenceMs) ==>
              rounds <= Rounds(timeoutMs, cadenceMs) && (!finished ==> rounds == Rounds(timeoutMs, cadenceMs))
  {
    assert Elapsed(0, cadenceMs) == 0;
    assert Unanswered(timeoutMs, cadenceMs, answered, 0);
    hide *;
    ghost var last := SomeRoundEnds(timeoutMs, cadenceMs, answered);
    var elapsed := 0;
    rounds := 0;
    finished := false;
    while elapsed < timeoutMs
      invariant elapsed == Elapsed(rounds, cadenceMs)
      invariant !finished && Unanswered(timeoutMs, cadenceMs, answered, rounds)
      decreases last - rounds
    {
      if answered(rounds) {
        finished := true;
        rounds := rounds + 1;
        break;
      }
      OneMoreUnanswered(timeoutMs, cadenceMs, answered, rounds);
      elapsed := Tick(elapsed, cadenceMs);
      rounds := rounds + 1;
    }
    if RoundsFit(timeoutMs, cadenceMs) {
      RoundsTaken(timeoutMs, cadenceMs, answered, if finished then rounds - 1 else rounds);
    }
  }
}
