/** The proxy's forward loop: attempts against one upstream with a capped, doubling back-off. */
module ProxyRetry {
  /** How an attempt ends, and how many milliseconds it takes. */
  datatype Attempt = Reply(status: nat, cost: nat) | Fatal(cost: nat) | Retryable(cost: nat)

  datatype Outcome = Upstream(status: nat) | BadGateway | Unavailable

  const FIRST_BACKOFF: nat := 100
  const MAX_BACKOFF: nat := 2000

  /** The back-off after `k` doublings. */
  function Backoff(k: nat): (r: nat)
    ensures FIRST_BACKOFF <= r <= MAX_BACKOFF
  {
    if k == 0 then FIRST_BACKOFF else
    var twice := Backoff(k - 1) * 2;
    if twice <= MAX_BACKOFF then twice else MAX_BACKOFF
  }

  /** The first `n` sleeps together. */
  function SleepSum(n: nat): (r: nat)
    ensures r >= 100 * n
  {
    if n == 0 then 0 else SleepSum(n - 1) + Backoff(n - 1)
  }

  lemma {:induction false} SleepSumIncreases(a: nat, b: nat)
    requires a < b
    ensures SleepSum(a) < SleepSum(b)
  {
    if a + 1 < b {
      SleepSumIncreases(a, b - 1);
    }
  }

  /** The largest number of sleeps that together stay below the window. */
  ghost predicate MostSleeps(window: nat, m: nat) { SleepSum(m) < window <= SleepSum(m + 1) }

  /** There is exactly one such number for every positive window. */
  lemma MostSleepsExists(window: nat) returns (m: nat)
    requires window > 0
    ensures MostSleeps(window, m)
    ensures forall other: nat :: MostSleeps(window, other) ==> other == m
  {
    m := 0;
    while SleepSum(m + 1) < window
      invariant SleepSum(m) < window
      decreases window - SleepSum(m)
    {
      m := m + 1;
    }
    forall other: nat | MostSleeps(window, other) ensures other == m {
      if other < m && other + 1 < m { SleepSumIncreases(other + 1, m); }
      if m < other && m + 1 < other { SleepSumIncreases(m + 1, other); }
    }
  }

  ghost predicate NeverAnswers(attempt: nat -> Attempt, oversleep: nat -> nat) {
    forall i: nat :: attempt(i) == Retryable(0) && oversleep(i) == 0
  }

  /**
   The loop, for every timing of attempts and every delay of the sleeps: a reply
   comes from the last attempt, a 503 only after the whole window, and the number of
   attempts is bounded by the window alone. With instant attempts and exact sleeps
   the bound is met.
   */
  method ForwardLoop(window: nat, attempt: nat -> Attempt, oversleep: nat -> nat)
    returns (outcome: Outcome, attempts: nat, elapsed: nat)
    ensures attempts >= 1
    ensures window == 0 ==> attempts == 1
    ensures forall m: nat :: MostSleeps(window, m) ==> attempts <= m + 2
    ensures forall i :: 0 <= i < attempts - 1 ==> attempt(i).Retryable?
    ensures outcome.Upstream? <==> attempt(attempts - 1).Reply?
    ensures outcome.Upstream? ==> outcome.status == attempt(attempts - 1).status
    ensures outcome.BadGateway? <==> attempt(attempts - 1).Fatal?
    ensures outcome.Unavailable? ==> elapsed >= window
    ensures NeverAnswers(attempt, oversleep) ==> outcome.Unavailable? && elapsed == SleepSum(attempts - 1)
    ensures NeverAnswers(attempt, oversleep) ==> forall m: nat :: MostSleeps(window, m) ==> attempts == m + 2
  {
    var backoff := FIRST_BACKOFF;
    var now := 0;
    attempts := 0;
    while true
      invariant backoff == Backoff(attempts)
      invariant now >= SleepSum(attempts)
      invariant attempts > 0 ==> SleepSum(attempts - 1) < window
      invariant forall i :: 0 <= i < attempts ==> attempt(i).Retryable?
      invariant NeverAnswers(attempt, oversleep) ==> now == SleepSum(attempts)
      decreases window - SleepSum(attempts)
    {
      var a := attempt(attempts);
      now := now + a.cost;
      BoundHolds(window, attempts);
      attempts := attempts + 1;
      match a {
        case Reply(status, _) => return Upstream(status), attempts, now;
        case Fatal(_) => return BadGateway, attempts, now;
        case Retryable(_) =>
      }
      if now >= window {
        BoundMet(window, attempts - 1);
        return Unavailable, attempts, now;
      }
      now := now + backoff + oversleep(attempts - 1);
      backoff := if backoff * 2 <= MAX_BACKOFF then backoff * 2 else MAX_BACKOFF;
    }
  }

  /** An attempt with this number is made only if the sleeps before the previous check fit the window. */
  lemma BoundHolds(window: nat, k: nat)
    requires k > 0 ==> SleepSum(k - 1) < window
    ensures forall m: nat :: MostSleeps(window, m) ==> k <= m + 1
  {
    forall m: nat | MostSleeps(window, m) ensures k <= m + 1 {
      if k > m + 2 { SleepSumIncreases(m + 1, k - 1); }
    }
  }

  lemma BoundMet(window: nat, k: nat)
    requires k > 0 ==> SleepSum(k - 1) < window
    ensures SleepSum(k) >= window ==> forall m: nat :: MostSleeps(window, m) ==> k == m + 1
  {
    if SleepSum(k) >= window {
      forall m: nat | MostSleeps(window, m) ensures k == m + 1 {
        if k < m { SleepSumIncreases(k, m); }
        if k > m + 2 { SleepSumIncreases(m + 1, k - 1); }
      }
    }
  }

  lemma {:induction false} BackoffSettles(k: nat)
    requires k >= 5
    ensures Backoff(k) == 2000
  {
    if k == 5 {
      assert Backoff(1) == 200 && Backoff(2) == 400;
      assert Backoff(3) == 800 && Backoff(4) == 1600;
    } else {
      BackoffSettles(k - 1);
    }
  }

  lemma {:induction false} SleepSumSettles(n: nat)
    requires n >= 5
    ensures SleepSum(n) == 3100 + 2000 * (n - 5)
  {
    if n == 5 {
      assert Backoff(0) == 100 && Backoff(1) == 200 && Backoff(2) == 400;
      assert Backoff(3) == 800 && Backoff(4) == 1600;
      assert SleepSum(2) == 300;
      assert SleepSum(4) == 1500;
    } else {
      SleepSumSettles(n - 1);
      BackoffSettles(n - 1);
    }
  }

  /** Twenty attempts for the default window of thirty seconds. */
  lemma DefaultWindow()
    ensures MostSleeps(30_000, 18)
  {
    SleepSumSettles(18);
    SleepSumSettles(19);
  }
}
