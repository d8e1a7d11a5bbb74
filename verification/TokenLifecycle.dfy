/** The Vault client's token lifecycle (provider/hashicorp_vault/client.go): the
    sleep before a token's end, the re-login loop, and the endless outer loop as a
    small-step system with a clock.  Times are in nanoseconds. */
module TokenLifecycle {
  import opened Text

  const SECOND: int := 1_000_000_000

  // ----- Go's int64 durations

  const TWO63: int := 0x8000_0000_0000_0000
  const TWO64: int := 0x1_0000_0000_0000_0000

  predicate IsInt64(x: int) { -TWO63 <= x < TWO63 }

  /** The value an int64 operation leaves. */
  function Wrap64(x: int): (w: int)
    ensures IsInt64(w)
    ensures IsInt64(x) ==> w == x
  {
    (x + TWO63) % TWO64 - TWO63
  }

  /** Go's division, truncating toward zero. */
  function Quotient(x: int, d: int): int
    requires d > 0
  {
    if x >= 0 then x / d else -(-x / d)
  }

  /** How long the loop sleeps on a token that cannot be renewed. */
  function LeaseSleep(leaseSeconds: int): int {
    var lease := Wrap64(leaseSeconds * SECOND);
    var positive := if lease <= 0 then 300 * SECOND else lease;
    Quotient(Wrap64(positive * 4), 5)
  }

  /** The longest lease, in seconds, that survives the multiplications. */
  const MAX_LEASE: int := 2_305_843_009

  /** For a positive lease the sleep is four fifths of it exactly up to MAX_LEASE;
      beyond, an int64 overflow changes it. */
  lemma LeaseSleepIff(lease: int)
    requires lease > 0
    ensures LeaseSleep(lease) * 5 == lease * SECOND * 4 <==> lease <= MAX_LEASE
    ensures lease <= MAX_LEASE ==> 0 < LeaseSleep(lease) < lease * SECOND
  {}

  /** A lease of zero or less counts as five minutes, so the sleep is four minutes; only a
      lease so far below zero that the product overflows counts otherwise. */
  lemma DefaultLeaseSleep(lease: int)
    requires -9_223_372_036 <= lease <= 0
    ensures LeaseSleep(lease) == 240 * SECOND
  {}

  // ----- the re-login loop

  datatype Token = Token(serial: nat, renewable: bool, lease: int, issued: int)

  /** One login started at some instant: its outcome and how long it took. */
  datatype Attempt = Attempt(token: Option<Token>, took: nat)

  const FIRST_BACKOFF := 1 * SECOND
  const MAX_BACKOFF := 60 * SECOND

  function Pow2(k: nat): nat { if k == 0 then 1 else 2 * Pow2(k - 1) }

  /** The sleep after the (k+1)-th failure. */
  function Backoff(k: nat): int {
    SECOND * if k < 6 then Pow2(k) else 60
  }

  /** When the attempts of a re-login that never sleeps less start. */
  ghost predicate Attempts(login: int -> Attempt, starts: seq<int>) {
    && starts != []
    && forall k :: 0 <= k < |starts| - 1 ==>
         login(starts[k]).token.None? && starts[k + 1] == starts[k] + login(starts[k]).took + Backoff(k)
  }

  /** A whole re-login: its attempts, the last of them succeeding. */
  ghost predicate Episode(login: int -> Attempt, began: int, starts: seq<int>, token: Token, now: int, slept: int) {
    && Attempts(login, starts) && starts[0] == began
    && login(starts[|starts| - 1]).token == Some(token)
    && now == starts[|starts| - 1] + login(starts[|starts| - 1]).took
    && slept == TotalSleep(|starts| - 1)
  }

  /** `reLogin`: tries until a login succeeds, which it must from `recovers` on. */
  method ReLogin(began: int, login: int -> Attempt, ghost recovers: int) returns (token: Token, now: int, slept: int)
    requires forall t :: t >= recovers ==> login(t).token.Some?
    ensures exists starts :: Episode(login, began, starts, token, now, slept)
  {
    var backoff := FIRST_BACKOFF;
    now := began;
    slept := 0;
    ghost var starts := [began];
    while true
      invariant Attempts(login, starts) && starts[0] == began && now == starts[|starts| - 1]
      invariant backoff == Backoff(|starts| - 1) && 0 < backoff <= MAX_BACKOFF
      invariant slept == TotalSleep(|starts| - 1)
      decreases recovers - now
    {
      var attempt := login(now);
      if attempt.token.Some? {
        token, now := attempt.token.value, now + attempt.took;
        assert Episode(login, began, starts, token, now, slept);
        return;
      }
      now := now + attempt.took + backoff;
      slept := slept + backoff;
      starts := starts + [now];
      assert IsInt64(backoff * 2);
      BackoffDoubles(|starts| - 2);
      backoff := backoff * 2;
      if backoff > MAX_BACKOFF {
        backoff := MAX_BACKOFF;
      }
    }
  }

  /** All that n failures sleep. */
  function TotalSleep(n: nat): int {
    if n == 0 then 0 else TotalSleep(n - 1) + Backoff(n - 1)
  }

  lemma SmallPowers()
    ensures Pow2(0) == 1 && Pow2(1) == 2 && Pow2(2) == 4 && Pow2(3) == 8 && Pow2(4) == 16 && Pow2(5) == 32
            && Pow2(6) == 64
  {}

  /** Doubling with the cap goes from one sleep to the next. */
  lemma BackoffDoubles(k: nat)
    ensures 0 < Backoff(k) <= MAX_BACKOFF
    ensures Backoff(k + 1) == if 2 * Backoff(k) > MAX_BACKOFF then MAX_BACKOFF else 2 * Backoff(k)
  {
    SmallPowers();
  }

  /** The k-th failure sleeps min(2^(k-1), 60) seconds; n failures sleep 2^n - 1
      seconds in all up to six, and a minute for each one more. */
  lemma {:induction false} TotalSleepClosedForm(n: nat)
    ensures TotalSleep(n) == SECOND * if n <= 6 then Pow2(n) - 1 else 63 + 60 * (n - 6)
  {
    SmallPowers();
    if n > 0 { TotalSleepClosedForm(n - 1); }
  }

  /** When logins started from `recovers` on succeed and an attempt takes at most
      `longest`, the successful one starts within `longest` and a minute of it. */
  lemma RecoversWithinAMinute(login: int -> Attempt, began: int, starts: seq<int>, token: Token, now: int, slept: int,
                              recovers: int, longest: nat)
    requires Episode(login, began, starts, token, now, slept)
    requires forall t :: t >= recovers ==> login(t).token.Some?
    requires forall t :: login(t).took <= longest
    ensures |starts| > 1 ==> starts[|starts| - 1] < recovers + longest + 60 * SECOND
    ensures |starts| > 1 ==> now < recovers + 2 * longest + 60 * SECOND
  {
    if |starts| > 1 {
      var k := |starts| - 2;
      BackoffDoubles(k);
      assert login(starts[k]).token.None?;
    }
  }
}
